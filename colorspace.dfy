/** The colour helpers of src/image/mod.rs: the RGB distance the converter minimises and the
    `Rgb<u8>` wrappers around the palette hex codec. */
module ColorSpace {
  import opened Wrappers
  import opened Types
  import opened Errors
  import HexParser

  /** The largest squared distance two 8-bit colours can have. */
  const MaxDistance: nat := 3 * 255 * 255

  /** `rgb_distance`, squared. The source takes the square root of this sum in `f64`; every
      channel difference is an integer of magnitude at most 255, so the sum is exact and, the
      square root being strictly monotone on non-negative numbers (`SquaredComparisonAgrees`),
      comparing squared distances decides every `<` the same way. */
  function RgbDistance(c1: Rgb, c2: Rgb): (d: nat)
    ensures d == 0 <==> c1 == c2
    ensures d <= MaxDistance
  {
    var dr := c1.r - c2.r;
    var dg := c1.g - c2.g;
    var db := c1.b - c2.b;
    SquareBound(dr);
    SquareBound(dg);
    SquareBound(db);
    dr * dr + dg * dg + db * db
  }

  lemma SquareBound(d: int)
    requires -255 <= d <= 255
    ensures 0 <= d * d <= 255 * 255
    ensures d * d == 0 <==> d == 0
  {
    var m := if d < 0 then -d else d;
    assert d * d == m * m;
    MulMono(m, 255, m);
    MulMono(m, 255, 255);
    if m > 0 {
      MulMono(1, m, m);
    }
  }

  lemma MulMono(a: int, b: int, c: int)
    requires 0 <= a <= b && 0 <= c
    ensures 0 <= a * c <= b * c
  {
  }

  /** The Euclidean distance is symmetric. */
  lemma DistanceSymmetric(c1: Rgb, c2: Rgb)
    ensures RgbDistance(c1, c2) == RgbDistance(c2, c1)
  {
    var dr := c1.r - c2.r;
    var dg := c1.g - c2.g;
    var db := c1.b - c2.b;
    assert (-dr) * (-dr) == dr * dr;
    assert (-dg) * (-dg) == dg * dg;
    assert (-db) * (-db) == db * db;
  }

  /** Comparing non-negative numbers by their squares gives the same answer as comparing the
      numbers: why the square root can be dropped. */
  lemma SquaredComparisonAgrees(x: real, y: real)
    requires 0.0 <= x && 0.0 <= y
    ensures x < y <==> x * x < y * y
  {
    if x < y {
      SquareStrict(x, y);
    } else {
      SquareMono(y, x);
    }
  }

  lemma SquareStrict(x: real, y: real)
    requires 0.0 <= x < y
    ensures x * x < y * y
  {
    var d := y - x;
    assert y * y == x * x + 2.0 * x * d + d * d;
    assert d * d > 0.0;
    assert x * d >= 0.0;
  }

  lemma SquareMono(x: real, y: real)
    requires 0.0 <= x <= y
    ensures x * x <= y * y
  {
    var d := y - x;
    assert y * y == x * x + 2.0 * x * d + d * d;
    assert d * d >= 0.0;
    assert x * d >= 0.0;
  }

  /** White is farther from black than red is. */
  lemma BlackWhiteFartherThanRed()
    ensures RgbDistance(Rgb(0, 0, 0), Rgb(255, 255, 255)) > RgbDistance(Rgb(0, 0, 0), Rgb(255, 0, 0))
  {
    assert RgbDistance(Rgb(0, 0, 0), Rgb(255, 255, 255)) == 3 * 255 * 255;
    assert RgbDistance(Rgb(0, 0, 0), Rgb(255, 0, 0)) == 255 * 255;
  }

  /** `image::hex_to_rgb`: the palette decoder's triple as an `Rgb<u8>`, its errors passed on. */
  function HexToRgb(hex: string): (r: BucketResult<Rgb>)
    requires HexParser.HexToRgbDefined(hex)
    ensures r.Ok? <==> HexParser.HexToRgb(hex).Ok?
    ensures r.Err? ==> r.error == HexParser.HexToRgb(hex).error
    ensures r.Ok? ==> (r.value.r, r.value.g, r.value.b) == HexParser.HexToRgb(hex).value
  {
    var (r, g, b) :- HexParser.HexToRgb(hex);
    Ok(Rgb(r, g, b))
  }

  /** `image::rgb_to_hex`: the palette encoder applied to the three channels. */
  function RgbToHex(c: Rgb): (hex: string)
    ensures HexParser.IsCanonicalHex(hex)
  {
    HexParser.RgbToHexShape(c.r, c.g, c.b);
    HexParser.RgbToHex(c.r, c.g, c.b)
  }

  /** Every colour survives encoding and decoding. */
  lemma RgbHexRoundTrip(c: Rgb)
    ensures HexParser.HexToRgbDefined(RgbToHex(c))
    ensures HexToRgb(RgbToHex(c)) == Ok(c)
  {
    HexParser.RgbHexRoundTrip(c.r, c.g, c.b);
  }

  /** The unit-test decoding of the nord red. */
  lemma HexToRgbExamples(red: string)
    requires red == "#BF616A"
    ensures HexParser.HexToRgbDefined(red) && HexToRgb(red) == Ok(Rgb(191, 97, 106))
  {
    HexParser.HexToRgbExample(red);
  }

  /** The leading '#' is optional: "FFFFFF" decodes to white. */
  lemma HexToRgbWithoutHash(white: string)
    requires white == "FFFFFF"
    ensures HexParser.HexToRgbDefined(white) && HexToRgb(white) == Ok(Rgb(255, 255, 255))
  {
    assert HexToRgb("#" + white) == Ok(Rgb(255, 255, 255)) by {
      assert "#" + white == RgbToHex(Rgb(255, 255, 255));
      RgbHexRoundTrip(Rgb(255, 255, 255));
    }
    HexParser.HashIsOptional(white);
  }

  /** The unit-test encodings. */
  lemma RgbToHexExamples()
    ensures RgbToHex(Rgb(191, 97, 106)) == "#BF616A"
    ensures RgbToHex(Rgb(0, 0, 0)) == "#000000"
  {
    assert HexParser.HexByte(191) == "BF";
    assert HexParser.HexByte(97) == "61";
    assert HexParser.HexByte(106) == "6A";
    assert HexParser.HexByte(0) == "00";
  }
}
