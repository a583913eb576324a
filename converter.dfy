/** `NearestColorConverter` (src/image/converter.rs): a palette resolved to an ordered, non-empty
    list of RGB colours, and the per-pixel remapping of an image onto it. */
module Converter {
  import opened Wrappers
  import opened Types
  import opened Errors
  import opened Image
  import ColorSpace
  import HexParser

  /** Every hex can be handed to `hex_to_rgb` without it slicing inside a character. */
  predicate Decodable(colors: seq<Color>)
  {
    forall i | 0 <= i < |colors| :: HexParser.HexToRgbDefined(colors[i].hex)
  }

  /** `hex_to_rgb` of one palette colour. */
  function DecodeColor(c: Color): (r: BucketResult<Rgb>)
    requires HexParser.HexToRgbDefined(c.hex)
    ensures r.Err? ==> r.error.InvalidColor?
  {
    ColorSpace.HexToRgb(c.hex)
  }

  /** Decoding a list of colours in order, stopping at the first hex that does not decode. */
  function DecodeColors(colors: seq<Color>): BucketResult<seq<Rgb>>
    requires Decodable(colors)
  {
    MapResult(colors, DecodeColor)
  }

  /** Decoding succeeds exactly when every hex decodes, and then yields the decoded colours in
      declaration order. */
  lemma DecodeColorsOk(colors: seq<Color>)
    requires Decodable(colors)
    ensures DecodeColors(colors).Ok? <==> forall i | 0 <= i < |colors| :: DecodeColor(colors[i]).Ok?
    ensures DecodeColors(colors).Ok? ==> (|DecodeColors(colors).value| == |colors| &&
      forall i | 0 <= i < |colors| :: DecodeColor(colors[i]) == Ok(DecodeColors(colors).value[i]))
  {
    MapResultOk(colors, DecodeColor);
  }

  /** A failure is the `InvalidColor` of the first hex that does not decode. */
  lemma DecodeColorsFirstError(colors: seq<Color>) returns (i: nat)
    requires Decodable(colors) && DecodeColors(colors).Err?
    ensures DecodeColors(colors).error.InvalidColor?
    ensures i < |colors| && DecodeColor(colors[i]) == Err(DecodeColors(colors).error)
    ensures forall j | 0 <= j < i :: DecodeColor(colors[j]).Ok?
  {
    i := MapResultFirstError(colors, DecodeColor);
  }

  lemma DecodeErrorIsInvalidColor(colors: seq<Color>)
    requires Decodable(colors) && DecodeColors(colors).Err?
    ensures DecodeColors(colors).error.InvalidColor?
  {
    var _ := DecodeColorsFirstError(colors);
  }

  /** `palette.colors.iter().find(|c| c.name == *name)`: the first colour with that name. */
  function FindByName(colors: seq<Color>, name: string): (r: Option<Color>)
    ensures r.None? <==> forall i | 0 <= i < |colors| :: colors[i].name != name
    ensures r.Some? ==> r.value in colors && r.value.name == name
  {
    if colors == [] then None
    else if colors[0].name == name then Some(colors[0])
    else
      assert forall i | 1 <= i < |colors| :: colors[i] == colors[1..][i - 1];
      FindByName(colors[1..], name)
  }

  /** The colour found is the first one with the name. */
  lemma {:induction false} FindByNameFirst(colors: seq<Color>, name: string) returns (i: nat)
    requires FindByName(colors, name).Some?
    ensures i < |colors| && colors[i] == FindByName(colors, name).value
    ensures forall j | 0 <= j < i :: colors[j].name != name
  {
    if colors[0].name == name {
      i := 0;
    } else {
      var k := FindByNameFirst(colors[1..], name);
      i := k + 1;
    }
  }

  /** The colours a selection picks, in selection order: the first palette colour of each
      selected name, names without a colour skipped, repeated names repeated. */
  function Resolved(colors: seq<Color>, names: seq<string>): (r: seq<Color>)
    ensures |r| <= |names|
    ensures forall k | 0 <= k < |r| :: r[k] in colors
  {
    if names == [] then []
    else
      var m := |names| - 1;
      var init := Resolved(colors, names[..m]);
      match FindByName(colors, names[m])
      case None => init
      case Some(c) => init + [c]
  }

  /** When every name is in the palette, the selection is the first colour of each name, one per
      name and in selection order. */
  lemma {:induction false} ResolvedAllFound(colors: seq<Color>, names: seq<string>)
    requires forall n | 0 <= n < |names| :: FindByName(colors, names[n]).Some?
    ensures |Resolved(colors, names)| == |names|
    ensures forall k | 0 <= k < |names| :: Resolved(colors, names)[k] == FindByName(colors, names[k]).value
  {
    if names != [] {
      var m := |names| - 1;
      assert forall n | 0 <= n < m :: names[..m][n] == names[n];
      ResolvedAllFound(colors, names[..m]);
    }
  }

  /** When no name is in the palette, nothing is selected. */
  lemma {:induction false} ResolvedNoneFound(colors: seq<Color>, names: seq<string>)
    requires forall n | 0 <= n < |names| :: FindByName(colors, names[n]).None?
    ensures Resolved(colors, names) == []
  {
    if names != [] {
      var m := |names| - 1;
      assert forall n | 0 <= n < m :: names[..m][n] == names[n];
      ResolvedNoneFound(colors, names[..m]);
    }
  }

  /** The colours resolved for a prefix of the selection begin the colours resolved for all of it. */
  lemma {:induction false} ResolvedPrefix(colors: seq<Color>, names: seq<string>, i: nat)
    requires i <= |names|
    ensures |Resolved(colors, names[..i])| <= |Resolved(colors, names)|
    ensures Resolved(colors, names)[..|Resolved(colors, names[..i])|] == Resolved(colors, names[..i])
    decreases |names| - i
  {
    if i < |names| {
      ResolvedPrefix(colors, names, i + 1);
      var m := i;
      var longer := names[..i + 1];
      assert longer[..m] == names[..i];
      var init := Resolved(colors, names[..i]);
      var next := Resolved(colors, longer);
      assert next[..|init|] == init;
    } else {
      assert names[..i] == names;
    }
  }

  /** One more selected name adds its colour, if the palette has one, at the end. */
  lemma ResolvedStep(colors: seq<Color>, names: seq<string>, i: nat)
    requires i < |names|
    ensures FindByName(colors, names[i]).None? ==> Resolved(colors, names[..i + 1]) == Resolved(colors, names[..i])
    ensures FindByName(colors, names[i]).Some? ==>
      Resolved(colors, names[..i + 1]) == Resolved(colors, names[..i]) + [FindByName(colors, names[i]).value]
  {
    assert names[..i + 1][..i] == names[..i];
  }

  /** Decoding one more colour appends its decoding. */
  lemma DecodeSnoc(colors: seq<Color>, c: Color)
    requires Decodable(colors) && HexParser.HexToRgbDefined(c.hex)
    requires DecodeColors(colors).Ok? && DecodeColor(c).Ok?
    ensures Decodable(colors + [c])
    ensures DecodeColors(colors + [c]) == Ok(DecodeColors(colors).value + [DecodeColor(c).value])
  {
    assert (colors + [c])[..|colors|] == colors;
  }

  /** Decoding one more colour of a list: a failure ends the whole list with its error, a
      success appends the decoded colour. */
  lemma DecodePrefixStep(colors: seq<Color>, i: nat)
    requires Decodable(colors) && i < |colors|
    requires Decodable(colors[..i]) && DecodeColors(colors[..i]).Ok?
    ensures Decodable(colors[..i + 1])
    ensures DecodeColor(colors[i]).Err? ==> DecodeColors(colors) == Err(DecodeColor(colors[i]).error)
    ensures DecodeColor(colors[i]).Ok? ==>
      DecodeColors(colors[..i + 1]) == Ok(DecodeColors(colors[..i]).value + [DecodeColor(colors[i]).value])
  {
    MapResultStep(colors, DecodeColor, i);
  }

  /** The first selected colour that does not decode fails the whole selection with its error. */
  lemma SelectionFailsAt(colors: seq<Color>, names: seq<string>, i: nat)
    requires Decodable(colors) && i < |names|
    requires Decodable(Resolved(colors, names[..i])) && DecodeColors(Resolved(colors, names[..i])).Ok?
    requires FindByName(colors, names[i]).Some?
    requires DecodeColor(FindByName(colors, names[i]).value).Err?
    ensures Decodable(Resolved(colors, names))
    ensures DecodeColors(Resolved(colors, names)) == Err(DecodeColor(FindByName(colors, names[i]).value).error)
  {
    var c := FindByName(colors, names[i]).value;
    var before := Resolved(colors, names[..i]);
    var after := Resolved(colors, names[..i + 1]);
    ResolvedStep(colors, names, i);
    ResolvedDecodable(colors, names[..i + 1]);
    ResolvedDecodable(colors, names);
    assert after[..|before|] == before;
    ResolvedPrefix(colors, names, i + 1);
    MapResultErrorSticks(Resolved(colors, names), DecodeColor, |after|);
  }

  /** Resolved colours come from the palette, so they decode without slicing trouble. */
  lemma ResolvedDecodable(colors: seq<Color>, names: seq<string>)
    requires Decodable(colors)
    ensures Decodable(Resolved(colors, names))
  {
    var r := Resolved(colors, names);
    forall k | 0 <= k < |r|
      ensures HexParser.HexToRgbDefined(r[k].hex)
    {
      var i :| 0 <= i < |colors| && colors[i] == r[k];
    }
  }

  /** The resolved palette: a non-empty list of colours, the only thing conversion consults. The
      colour cache of the source is never filled and does not change any result. */
  datatype NearestColorConverter = NearestColorConverter(paletteColors: seq<Rgb>)
  {
    predicate Valid()
    {
      |paletteColors| > 0
    }

    /** `new`: decode every colour of the palette in declaration order. */
    static function FromPalette(palette: Palette): (r: BucketResult<NearestColorConverter>)
      requires Decodable(palette.colors)
      ensures r.Ok? <==> palette.colors != [] && DecodeColors(palette.colors).Ok?
      ensures r.Ok? ==> r.value.Valid() && DecodeColors(palette.colors) == Ok(r.value.paletteColors)
      ensures r.Err? && DecodeColors(palette.colors).Err? ==> r.error.InvalidColor?
      ensures palette.colors == [] ==>
        r == Err(PaletteNotFound("Palette '" + palette.name + "' has no valid colors"))
    {
      var decoded := DecodeColors(palette.colors);
      if decoded.Err? then
        DecodeErrorIsInvalidColor(palette.colors);
        Err(decoded.error)
      else if decoded.value == [] then
        Err(PaletteNotFound("Palette '" + palette.name + "' has no valid colors"))
      else
        Ok(NearestColorConverter(decoded.value))
    }

    /** `new_with_selected_colors`: an empty selection is `new`; otherwise the resolved colours,
        decoded in selection order, and `ColorNotFound` when none of the names is in the palette. */
    static function FromSelection(palette: Palette, selected: seq<string>): (r: BucketResult<NearestColorConverter>)
      requires Decodable(palette.colors)
      ensures r.Ok? ==> r.value.Valid()
      ensures selected == [] ==> r == FromPalette(palette)
      ensures selected != [] ==> (Decodable(Resolved(palette.colors, selected)) &&
        (r.Ok? <==> Resolved(palette.colors, selected) != [] && DecodeColors(Resolved(palette.colors, selected)).Ok?))
      ensures selected != [] && r.Ok? ==>
        DecodeColors(Resolved(palette.colors, selected)) == Ok(r.value.paletteColors)
    {
      if selected == [] then
        FromPalette(palette)
      else
        ResolvedDecodable(palette.colors, selected);
        var colors :- DecodeColors(Resolved(palette.colors, selected));
        if colors == [] then
          Err(ColorNotFound("None of the selected colors found in palette '" + palette.name + "'"))
        else
          Ok(NearestColorConverter(colors))
    }

    /** `new`, as the push loop the source runs. */
    static method New(palette: Palette) returns (r: BucketResult<NearestColorConverter>)
      requires Decodable(palette.colors)
      ensures r == FromPalette(palette)
    {
      var paletteColors: seq<Rgb> := [];
      for i := 0 to |palette.colors|
        invariant Decodable(palette.colors[..i])
        invariant DecodeColors(palette.colors[..i]) == Ok(paletteColors)
      {
        var rgb := DecodeColor(palette.colors[i]);
        DecodePrefixStep(palette.colors, i);
        if rgb.Err? {
          return Err(rgb.error);
        }
        paletteColors := paletteColors + [rgb.value];
      }
      assert palette.colors[..|palette.colors|] == palette.colors;
      if paletteColors == [] {
        return Err(PaletteNotFound("Palette '" + palette.name + "' has no valid colors"));
      }
      return Ok(NearestColorConverter(paletteColors));
    }

    /** `new_with_selected_colors`, as the lookup-and-push loop the source runs. */
    static method NewWithSelectedColors(palette: Palette, selected: seq<string>)
      returns (r: BucketResult<NearestColorConverter>)
      requires Decodable(palette.colors)
      ensures r == FromSelection(palette, selected)
    {
      if selected == [] {
        r := New(palette);
        return;
      }
      var paletteColors: seq<Rgb> := [];
      for i := 0 to |selected|
        invariant Decodable(Resolved(palette.colors, selected[..i]))
        invariant DecodeColors(Resolved(palette.colors, selected[..i])) == Ok(paletteColors)
      {
        ResolvedStep(palette.colors, selected, i);
        var found := FindByName(palette.colors, selected[i]);
        if found.Some? {
          var rgb := DecodeColor(found.value);
          if rgb.Err? {
            SelectionFailsAt(palette.colors, selected, i);
            return Err(rgb.error);
          }
          DecodeSnoc(Resolved(palette.colors, selected[..i]), found.value);
          paletteColors := paletteColors + [rgb.value];
        }
      }
      assert selected[..|selected|] == selected;
      if paletteColors == [] {
        return Err(ColorNotFound("None of the selected colors found in palette '" + palette.name + "'"));
      }
      return Ok(NearestColorConverter(paletteColors));
    }

    /** The distance-minimising colour: `paletteColors[NearestIndex(...)]`. */
    function Nearest(target: Rgb): (c: Rgb)
      requires Valid()
      ensures c in paletteColors
    {
      paletteColors[NearestIndex(paletteColors, target)]
    }

    /** `find_nearest_color`: a scan keeping the best distance so far, replacing it only on a
        strictly smaller one. */
    method FindNearestColor(target: Rgb) returns (nearest: Rgb)
      requires Valid()
      ensures nearest == Nearest(target)
    {
      var minDistance := Infinity;
      nearest := paletteColors[0];
      for i := 0 to |paletteColors|
        invariant i == 0 ==> minDistance == Infinity && nearest == paletteColors[0]
        invariant i > 0 ==>
          var k := NearestIndex(paletteColors[..i], target);
          nearest == paletteColors[k] && minDistance == ColorSpace.RgbDistance(target, paletteColors[k])
      {
        var distance := ColorSpace.RgbDistance(target, paletteColors[i]);
        assert paletteColors[..i + 1][..i] == paletteColors[..i];
        if distance < minDistance {
          minDistance := distance;
          nearest := paletteColors[i];
        }
      }
      assert paletteColors[..|paletteColors|] == paletteColors;
    }

    /** `convert_pixel`: the nearest palette colour; the colour cache is never consulted. */
    method ConvertPixel(rgb: Rgb) returns (c: Rgb)
      requires Valid()
      ensures c == Nearest(rgb)
    {
      c := FindNearestColor(rgb);
    }

    /** A pixel on the RGB path: remapped, opaque. */
    function RemapOpaque(p: Rgba): (q: Rgba)
      requires Valid()
      ensures RgbOf(q) == Nearest(RgbOf(p)) && q.a == 255
    {
      var c := Nearest(RgbOf(p));
      Rgba(c.r, c.g, c.b, 255)
    }

    /** A pixel on the alpha path: RGB remapped, alpha kept. */
    function RemapKeepAlpha(p: Rgba): (q: Rgba)
      requires Valid()
      ensures RgbOf(q) == Nearest(RgbOf(p)) && q.a == p.a
    {
      var c := Nearest(RgbOf(p));
      Rgba(c.r, c.g, c.b, p.a)
    }

    /** What `convert_image` produces from `img`: an `ImageRgba8` remapped pixel by pixel with
        alpha kept for the RGBA variants, an opaque `ImageRgb8` remapped pixel by pixel otherwise,
        in both cases of the input's size. */
    predicate ConvertedPerPixel(img: DynamicImage, out: DynamicImage)
      requires Valid()
      reads img.pixels, out.pixels
    {
      SameSize(out, img) &&
      if TakesAlphaPath(img.colorType) then KeptAlpha(img, out)
      else
        out.colorType == Rgb8 &&
        forall x, y | 0 <= x < Width(img) && 0 <= y < Height(img) ::
          out.pixels[x, y] == RemapOpaque(img.pixels[x, y])
    }

    /** What `convert_image_with_alpha` produces: an `ImageRgba8` of the same size, each pixel's
        RGB remapped and its alpha copied. */
    predicate KeptAlpha(img: DynamicImage, out: DynamicImage)
      requires Valid()
      reads img.pixels, out.pixels
    {
      SameSize(out, img) && out.colorType == Rgba8 &&
      forall x, y | 0 <= x < Width(img) && 0 <= y < Height(img) ::
        out.pixels[x, y] == RemapKeepAlpha(img.pixels[x, y])
    }

    /** `convert_image`: the RGBA variants take the alpha path; every other variant is read as
        RGB and each pixel of a new image of the same size is written with its match. */
    method ConvertImage(img: DynamicImage) returns (out: DynamicImage)
      requires Valid()
      ensures fresh(out.pixels)
      ensures ConvertedPerPixel(img, out)
    {
      if TakesAlphaPath(img.colorType) {
        out := ConvertImageWithAlpha(img);
        return;
      }
      var width, height := img.pixels.Length0, img.pixels.Length1;
      var output := new Rgba[width, height]((_, _) => Rgba(0, 0, 0, 255));
      for y := 0 to height
        invariant forall x', y' | 0 <= x' < width && 0 <= y' < y ::
          output[x', y'] == RemapOpaque(img.pixels[x', y'])
      {
        RemapRow(img.pixels, output, y, false);
      }
      out := DynamicImage(Rgb8, output);
    }

    /** `convert_image_with_alpha`: every pixel's RGB is remapped and its alpha copied into a new
        RGBA image of the same size. */
    method ConvertImageWithAlpha(img: DynamicImage) returns (out: DynamicImage)
      requires Valid()
      ensures fresh(out.pixels)
      ensures KeptAlpha(img, out)
    {
      var width, height := img.pixels.Length0, img.pixels.Length1;
      var output := new Rgba[width, height]((_, _) => Rgba(0, 0, 0, 0));
      for y := 0 to height
        invariant forall x', y' | 0 <= x' < width && 0 <= y' < y ::
          output[x', y'] == RemapKeepAlpha(img.pixels[x', y'])
      {
        RemapRow(img.pixels, output, y, true);
      }
      out := DynamicImage(Rgba8, output);
    }

    /** Row `y` of the `enumerate_pixels` walk: each pixel of the row remapped into `output`,
        its alpha kept or made opaque, and every other pixel of `output` left alone. */
    method RemapRow(src: array2<Rgba>, output: array2<Rgba>, y: nat, keepAlpha: bool)
      requires Valid() && src != output
      requires output.Length0 == src.Length0 && y < src.Length1 && y < output.Length1
      modifies output
      ensures forall x, y' | 0 <= x < output.Length0 && 0 <= y' < output.Length1 ::
        output[x, y'] == if y' != y then old(output[x, y'])
          else if keepAlpha then RemapKeepAlpha(src[x, y]) else RemapOpaque(src[x, y])
    {
      for x := 0 to src.Length0
        invariant forall x', y' | 0 <= x' < output.Length0 && 0 <= y' < output.Length1 ::
          output[x', y'] == if y' != y || x' >= x then old(output[x', y'])
            else if keepAlpha then RemapKeepAlpha(src[x', y]) else RemapOpaque(src[x', y])
      {
        var pixel := src[x, y];
        var converted := ConvertPixel(RgbOf(pixel));
        output[x, y] := Rgba(converted.r, converted.g, converted.b, if keepAlpha then pixel.a else 255);
      }
    }
  }

  /** `new` keeps the palette's colours, decoded, one for one and in declaration order. */
  lemma NewKeepsDeclarationOrder(palette: Palette)
    requires Decodable(palette.colors)
    requires NearestColorConverter.FromPalette(palette).Ok?
    ensures var colors := NearestColorConverter.FromPalette(palette).value.paletteColors;
      |colors| == |palette.colors| &&
      forall i | 0 <= i < |colors| :: DecodeColor(palette.colors[i]) == Ok(colors[i])
  {
    DecodeColorsOk(palette.colors);
  }

  /** A selection none of whose names is in the palette fails with `ColorNotFound`. */
  lemma NoSelectedColorFound(palette: Palette, selected: seq<string>)
    requires Decodable(palette.colors) && selected != []
    requires forall n | 0 <= n < |selected| :: FindByName(palette.colors, selected[n]).None?
    ensures NearestColorConverter.FromSelection(palette, selected) ==
      Err(ColorNotFound("None of the selected colors found in palette '" + palette.name + "'"))
  {
    ResolvedNoneFound(palette.colors, selected);
  }

  /** When every palette colour decodes and every selected name is in the palette, the converter
      holds one colour per selected name, in selection order: the first palette colour of that
      name. */
  lemma SelectionKeepsOrder(palette: Palette, selected: seq<string>)
    requires Decodable(palette.colors) && selected != []
    requires forall i | 0 <= i < |palette.colors| :: DecodeColor(palette.colors[i]).Ok?
    requires forall n | 0 <= n < |selected| :: FindByName(palette.colors, selected[n]).Some?
    ensures NearestColorConverter.FromSelection(palette, selected).Ok?
    ensures var colors := NearestColorConverter.FromSelection(palette, selected).value.paletteColors;
      |colors| == |selected| &&
      forall k | 0 <= k < |selected| :: DecodeColor(FindByName(palette.colors, selected[k]).value) == Ok(colors[k])
  {
    var resolved := Resolved(palette.colors, selected);
    ResolvedAllFound(palette.colors, selected);
    ResolvedDecodable(palette.colors, selected);
    forall k | 0 <= k < |resolved|
      ensures DecodeColor(resolved[k]).Ok?
    {
      var i :| 0 <= i < |palette.colors| && palette.colors[i] == resolved[k];
    }
    DecodeColorsOk(resolved);
  }

  /** `f64::INFINITY`, the starting best distance: larger than any distance. */
  const Infinity: nat := ColorSpace.MaxDistance + 1

  /** The index `find_nearest_color` settles on. */
  function NearestIndex(colors: seq<Rgb>, target: Rgb): (k: nat)
    requires |colors| > 0
    ensures IsNearestIndex(colors, target, k)
  {
    if |colors| == 1 then
      0
    else
      var n := |colors| - 1;
      var k := NearestIndex(colors[..n], target);
      assert forall j | 0 <= j < n :: colors[..n][j] == colors[j];
      if ColorSpace.RgbDistance(target, colors[n]) < ColorSpace.RgbDistance(target, colors[k]) then n
      else k
  }

  /** `k` is a colour at minimal distance from `target`, and every colour before it is strictly
      farther: the earliest of the closest. */
  predicate IsNearestIndex(colors: seq<Rgb>, target: Rgb, k: nat)
  {
    k < |colors| &&
    (forall j | 0 <= j < |colors| ::
      ColorSpace.RgbDistance(target, colors[k]) <= ColorSpace.RgbDistance(target, colors[j])) &&
    (forall j | 0 <= j < k ::
      ColorSpace.RgbDistance(target, colors[j]) > ColorSpace.RgbDistance(target, colors[k]))
  }

  /** The earliest closest colour is unique, so the scan's answer is fully determined by the
      minimality and tie-breaking properties. */
  lemma NearestIndexUnique(colors: seq<Rgb>, target: Rgb, k: nat)
    requires |colors| > 0
    ensures IsNearestIndex(colors, target, k) <==> k == NearestIndex(colors, target)
  {
    var m := NearestIndex(colors, target);
    if IsNearestIndex(colors, target, k) {
      assert !(k < m) && !(m < k);
    }
  }

  /** A colour of the palette maps to itself. */
  lemma PaletteColorMapsToItself(conv: NearestColorConverter, i: nat)
    requires conv.Valid() && i < |conv.paletteColors|
    ensures conv.Nearest(conv.paletteColors[i]) == conv.paletteColors[i]
  {
    var t := conv.paletteColors[i];
    var k := NearestIndex(conv.paletteColors, t);
    assert ColorSpace.RgbDistance(t, conv.paletteColors[k]) <= ColorSpace.RgbDistance(t, t);
  }

  /** A colour repeated later in the list is never the one chosen: exact ties go to the earlier. */
  lemma LaterDuplicateNeverChosen(colors: seq<Rgb>, target: Rgb, i: nat, j: nat)
    requires i < j < |colors| && colors[i] == colors[j]
    ensures NearestIndex(colors, target) != j
  {
    var k := NearestIndex(colors, target);
    assert ColorSpace.RgbDistance(target, colors[i]) == ColorSpace.RgbDistance(target, colors[j]);
  }

  /** The unit-test palette: Red, Green, Blue. Red maps to red and pink (255, 100, 100) maps to
      red. */
  lemma ConvertPixelExamples(cs: seq<Rgb>, red: Rgb, pink: Rgb)
    requires cs == [Rgb(255, 0, 0), Rgb(0, 255, 0), Rgb(0, 0, 255)]
    requires red == Rgb(255, 0, 0) && pink == Rgb(255, 100, 100)
    ensures cs[NearestIndex(cs, red)] == red
    ensures cs[NearestIndex(cs, pink)] == red
  {
    PaletteColorMapsToItself(NearestColorConverter(cs), 0);
    PinkIsNearestRed(cs, pink);
    NearestIndexUnique(cs, pink, 0);
  }

  lemma PinkIsNearestRed(cs: seq<Rgb>, pink: Rgb)
    requires cs == [Rgb(255, 0, 0), Rgb(0, 255, 0), Rgb(0, 0, 255)] && pink == Rgb(255, 100, 100)
    ensures IsNearestIndex(cs, pink, 0)
  {
    assert ColorSpace.RgbDistance(pink, cs[0]) == 20000;
    assert ColorSpace.RgbDistance(pink, cs[1]) == 99050;
    assert ColorSpace.RgbDistance(pink, cs[2]) == 99050;
  }
}
