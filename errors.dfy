/** The crate's error type (src/error.rs) and the messages its `Display` produces. */
module Errors {
  import opened Wrappers

  /** `RustBucketError`. The two variants that wrap foreign errors (`image::ImageError`,
      `std::io::Error`) carry a description of the failure instead of the foreign value. */
  datatype RustBucketError =
    | ImageError(detail: string)
    | IoError(detail: string)
    | InvalidColor(message: string)
    | PaletteNotFound(message: string)
    | InvalidPixelArea(message: string)
    | ColorNotFound(message: string)
    | PaletteParseError(message: string)

  /** `crate::Result<T>`. */
  type BucketResult<T> = Result<T, RustBucketError>

  /** The `#[error(...)]` format of each variant. */
  function Display(e: RustBucketError): string
  {
    match e
    case ImageError(d) => "Image processing error: " + d
    case IoError(d) => "IO error: " + d
    case InvalidColor(m) => "Invalid color format: " + m
    case PaletteNotFound(m) => "Palette not found: " + m
    case InvalidPixelArea(m) => "Invalid pixel area: " + m
    case ColorNotFound(m) => "Color not found in palette: " + m
    case PaletteParseError(m) => "Palette parse error: " + m
  }

  /** The second and ninth characters of each variant's prefix, which tell the variants apart. */
  function Mark(e: RustBucketError): (char, char)
  {
    match e
    case ImageError(_) => ('m', 'o')
    case IoError(_) => ('O', ':')
    case InvalidColor(_) => ('n', 'c')
    case PaletteNotFound(_) => ('a', 'n')
    case InvalidPixelArea(_) => ('n', 'p')
    case ColorNotFound(_) => ('o', 't')
    case PaletteParseError(_) => ('a', 'p')
  }

  /** The text `Display` puts before the payload. */
  function Prefix(e: RustBucketError): string
  {
    match e
    case ImageError(_) => "Image processing error: "
    case IoError(_) => "IO error: "
    case InvalidColor(_) => "Invalid color format: "
    case PaletteNotFound(_) => "Palette not found: "
    case InvalidPixelArea(_) => "Invalid pixel area: "
    case ColorNotFound(_) => "Color not found in palette: "
    case PaletteParseError(_) => "Palette parse error: "
  }

  function Payload(e: RustBucketError): string
  {
    if e.ImageError? || e.IoError? then e.detail else e.message
  }

  lemma DisplaySplits(e: RustBucketError)
    ensures Display(e) == Prefix(e) + Payload(e)
    ensures |Prefix(e)| > 8 && (Prefix(e)[1], Prefix(e)[8]) == Mark(e)
  {
  }

  /** Two errors display the same text only when they are the same error: the prefix names the
      variant and the rest is its payload. */
  lemma DisplayDistinguishes(e1: RustBucketError, e2: RustBucketError)
    ensures Display(e1) == Display(e2) ==> e1 == e2
  {
    DisplaySplits(e1);
    DisplaySplits(e2);
    if Display(e1) == Display(e2) {
      var d := Display(e1);
      assert d[1] == Prefix(e1)[1] == Prefix(e2)[1];
      assert d[8] == Prefix(e1)[8] == Prefix(e2)[8];
      assert Mark(e1) == Mark(e2);
      assert Prefix(e1) == Prefix(e2);
      assert Payload(e1) == d[|Prefix(e1)|..] == Payload(e2);
    }
  }
}
