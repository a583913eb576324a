/** `parse_pixels_area` (src/cli.rs), the value parser of `--pixels-area WIDTH[,HEIGHT]`: one or
    two comma-separated `u32`s, a single one standing for both. Its errors are plain messages. */
module Cli {
  import opened Wrappers
  import opened Types
  import opened Text
  import opened Errors
  import opened Processor

  /** `str::parse::<u32>`. */
  function ParseU32(s: string): Option<u32>
  {
    match ParseUnsigned(s, 10, 0x1_0000_0000)
    case None => None
    case Some(n) => Some(n)
  }

  /** Every part of `value` split at commas reads as a `u32`. */
  predicate AllPartsParse(value: string)
  {
    forall part | part in Split(value, ',') :: ParseU32(part).Some?
  }

  /** `parse_pixels_area` as written: the empty string and three or more parts are rejected, then
      the width and the height (the width again when there is no comma) are parsed in turn. Zero
      passes. */
  function ParsePixelsArea(value: string): (r: Result<(u32, u32), string>)
    ensures value == [] ==> r == Err("Invalid value for pixels area: empty string")
    ensures value != [] && Occurrences(value, ',') >= 2 ==>
      r == Err("Invalid number of parameters for pixels area: " + value)
    ensures r.Ok? <==> value != [] && Occurrences(value, ',') <= 1 && AllPartsParse(value)
    ensures r.Ok? ==> ParseU32(Split(value, ',')[0]) == Some(r.value.0)
    ensures r.Ok? && |Split(value, ',')| == 1 ==> r.value.1 == r.value.0
    ensures r.Ok? && |Split(value, ',')| == 2 ==> ParseU32(Split(value, ',')[1]) == Some(r.value.1)
  {
    SplitJoin(value, ',');
    if value == [] then Err("Invalid value for pixels area: empty string")
    else
      var parts := Split(value, ',');
      if |parts| > 2 then Err("Invalid number of parameters for pixels area: " + value)
      else
        PartsParse(value);
        match ParseU32(parts[0])
        case None => Err("Invalid width value: " + parts[0])
        case Some(width) =>
          if |parts| > 1 then
            match ParseU32(parts[1])
            case None => Err("Invalid height value: " + parts[1])
            case Some(height) => Ok((width, height))
          else Ok((width, width))
  }

  /** With one or two parts, every part parses exactly when the first does and, if there is a
      second, the second does. */
  lemma PartsParse(value: string)
    requires |Split(value, ',')| <= 2
    ensures AllPartsParse(value) <==>
      (ParseU32(Split(value, ',')[0]).Some? && (|Split(value, ',')| == 2 ==> ParseU32(Split(value, ',')[1]).Some?))
  {
    var parts := Split(value, ',');
    if |parts| == 1 {
      assert parts == [parts[0]];
    } else {
      assert parts == [parts[0], parts[1]];
    }
  }

  /** A number written out alone reads back as a square area. */
  lemma SquareRoundTrip(n: u32)
    ensures ParsePixelsArea(NatToString(n)) == Ok((n, n))
  {
    var s := NatToString(n);
    DigitsHaveNoComma(s);
    SplitWithoutSep(s, ',');
    ParseFormattedNat(n, 0x1_0000_0000);
  }

  /** `WIDTH,HEIGHT` written out reads back as that area. */
  lemma PairRoundTrip(w: u32, h: u32)
    ensures ParsePixelsArea(NatToString(w) + "," + NatToString(h)) == Ok((w, h))
  {
    var sw, sh := NatToString(w), NatToString(h);
    DigitsHaveNoComma(sw);
    DigitsHaveNoComma(sh);
    SplitAtFirstSep(sw, sh, ',');
    SplitWithoutSep(sh, ',');
    assert Split(sw + "," + sh, ',') == [sw, sh];
    ParseFormattedNat(w, 0x1_0000_0000);
    ParseFormattedNat(h, 0x1_0000_0000);
  }

  /** The documented inputs that parse: "5" and "3,7". */
  lemma ParsePixelsAreaAccepts()
    ensures ParsePixelsArea("5") == Ok((5, 5))
    ensures ParsePixelsArea("3,7") == Ok((3, 7))
  {
    SquareRoundTrip(5);
    assert NatToString(5) == "5";
    PairRoundTrip(3, 7);
    assert NatToString(3) + "," + NatToString(7) == "3,7";
  }

  /** The documented inputs that do not parse: "" and "1,2,3" for their shape. */
  lemma ParsePixelsAreaRejectsShape()
    ensures ParsePixelsArea("").Err?
    ensures ParsePixelsArea("1,2,3") == Err("Invalid number of parameters for pixels area: 1,2,3")
  {
    var s := "1,2,3";
    assert s[1..][1..][1..][1..][1..] == [];
    assert Occurrences(s, ',') == 2;
    assert "Invalid number of parameters for pixels area: " + s == "Invalid number of parameters for pixels area: 1,2,3";
  }

  lemma ParseU32Examples()
    ensures ParseU32("abc") == None && ParseU32("1") == Some(1)
  {
    assert DigitValue("abc"[0], 10).None?;
    assert "1"[..0] == [];
  }

  /** The documented input "abc" fails on the width. */
  lemma ParsePixelsAreaRejectsWidth()
    ensures ParsePixelsArea("abc") == Err("Invalid width value: abc")
  {
    SplitWithoutSep("abc", ',');
    ParseU32Examples();
    assert "Invalid width value: " + "abc" == "Invalid width value: abc";
  }

  /** The documented input "1,abc" fails on the height. */
  lemma ParsePixelsAreaRejectsHeight()
    ensures ParsePixelsArea("1,abc") == Err("Invalid height value: abc")
  {
    SplitWithoutSep("abc", ',');
    SplitAtFirstSep("1", "abc", ',');
    assert "1" + [','] + "abc" == "1,abc";
    ParseU32Examples();
    assert "Invalid height value: " + "abc" == "Invalid height value: abc";
  }

  /** As written, zero is accepted: "0" gives the area (0, 0). With averaging left on, that
      configuration breaks the conversion's requirement that both sides be at least 1 (the source
      panics in `step_by(0)`). */
  lemma ZeroAreaAccepted(config: Config)
    requires config.pixelsArea == Some((0, 0)) && !config.disableAvgPixels
    ensures ParsePixelsArea("0") == Ok((0, 0))
    ensures AveragingRequested(config) && !AreaUsable(config)
  {
    SquareRoundTrip(0);
    assert NatToString(0) == "0";
  }

  /** What the pipeline asks of the configured area: when block averaging runs, both sides are at
      least 1. */
  predicate AreaUsable(config: Config)
  {
    AveragingRequested(config) ==> config.pixelsArea.value.0 >= 1 && config.pixelsArea.value.1 >= 1
  }

  /** `parse_pixels_area` with the zero check its `InvalidPixelArea` error exists for: a parsed
      area with a zero side is rejected. */
  function ParsePixelsAreaChecked(value: string): (r: Result<(u32, u32), string>)
    ensures r.Ok? <==>
      (ParsePixelsArea(value).Ok? && ParsePixelsArea(value).value.0 >= 1 && ParsePixelsArea(value).value.1 >= 1)
    ensures r.Ok? ==> r == ParsePixelsArea(value)
    ensures ParsePixelsArea(value).Err? ==> r == ParsePixelsArea(value)
  {
    var area :- ParsePixelsArea(value);
    if area.0 == 0 || area.1 == 0 then
      Err(Display(InvalidPixelArea("width and height must be at least 1: " + value)))
    else Ok(area)
  }

  /** Any area the checked parser accepts satisfies the pipeline's requirement, whatever the rest
      of the configuration. */
  lemma CheckedAreaIsUsable(value: string, config: Config)
    requires ParsePixelsAreaChecked(value).Ok?
    requires config.pixelsArea == Some(ParsePixelsAreaChecked(value).value)
    ensures AreaUsable(config)
  {
  }

  /** The checked parser rejects "0" and still reads every positive square. */
  lemma CheckedRejectsZero(n: u32)
    ensures ParsePixelsAreaChecked("0").Err?
    ensures n >= 1 ==> ParsePixelsAreaChecked(NatToString(n)) == Ok((n, n))
  {
    SquareRoundTrip(0);
    assert NatToString(0) == "0";
    SquareRoundTrip(n);
  }
}
