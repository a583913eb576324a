/** The plain data of the crate (src/lib.rs) and the pixel types of the `image` crate it uses. */
module Types {
  import opened Wrappers

  /** `u8`. */
  type byte = x: int | 0 <= x < 0x100

  /** `u32`. */
  type u32 = x: int | 0 <= x < 0x1_0000_0000

  /** `image::Rgb<u8>`. */
  datatype Rgb = Rgb(r: byte, g: byte, b: byte)

  /** `image::Rgba<u8>`. */
  datatype Rgba = Rgba(r: byte, g: byte, b: byte, a: byte)

  function RgbOf(p: Rgba): Rgb
  {
    Rgb(p.r, p.g, p.b)
  }

  /** A named palette colour; `hex` is kept as the text it was given in. */
  datatype Color = Color(name: string, hex: string)

  /** A palette: its name, where it came from (a directory, or a `builtin://` / `user://` URI)
      and its colours in declaration order. */
  datatype Palette = Palette(name: string, path: string, colors: seq<Color>)

  /** The run configuration (`Config`), a field-by-field copy of the command-line arguments. */
  datatype Config = Config(
    inputPath: Option<string>,
    outputPath: string,
    palette: string,
    colors: seq<string>,
    enableBlur: bool,
    disableAvgPixels: bool,
    pixelsArea: Option<(u32, u32)>,
    quietMode: bool,
    benchmark: bool)
}
