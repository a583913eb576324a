/** The slice of the `image` crate's `DynamicImage` the converters touch: which variant an image
    is, and its pixels seen as an 8-bit RGBA grid. */
module Image {
  import opened Types

  /** The variants of `DynamicImage`. */
  datatype ColorType = L8 | La8 | Rgb8 | Rgba8 | L16 | La16 | Rgb16 | Rgba16 | Rgb32F | Rgba32F

  /** The variants whose conversion goes down the alpha-preserving path: the three RGBA ones.
      The luma-with-alpha variants are not among them. */
  predicate TakesAlphaPath(t: ColorType)
  {
    t.Rgba8? || t.Rgba16? || t.Rgba32F?
  }

  /** A `DynamicImage`: its variant and its pixels as `to_rgba8` would give them, indexed
      `[x, y]` (`Length0` is the width, `Length1` the height). `to_rgb8` is the RGB part of each
      pixel. An `ImageRgb8` produced by a converter is held with every alpha at 255, which is what
      its RGBA view has. */
  datatype DynamicImage = DynamicImage(colorType: ColorType, pixels: array2<Rgba>)

  function Width(img: DynamicImage): nat
  {
    img.pixels.Length0
  }

  function Height(img: DynamicImage): nat
  {
    img.pixels.Length1
  }

  /** Width and height agree. */
  predicate SameSize(a: DynamicImage, b: DynamicImage)
  {
    Width(a) == Width(b) && Height(a) == Height(b)
  }

  function Min(a: int, b: int): (m: int)
    ensures m <= a && m <= b && (m == a || m == b)
  {
    if a < b then a else b
  }
}
