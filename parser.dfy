/** Hex colour text (src/palette/parser.rs): the validator used when palettes are loaded, the
    decoder used when a converter is built, and the encoder. */
module HexParser {
  import opened Wrappers
  import opened Text
  import opened Types
  import opened Errors

  /** Exactly six ASCII hex digits: the body of a well-formed colour. */
  predicate IsHexBody(s: string)
  {
    |s| == 6 && forall i | 0 <= i < 6 :: IsAsciiHexDigit(s[i])
  }

  /** '#' followed by six hex digits: the form every accepted colour is stored in. */
  predicate IsCanonicalHex(s: string)
  {
    |s| == 7 && s[0] == '#' && IsHexBody(s[1..])
  }

  /** `parse_hex_color`: trims the text, drops one leading '#', and accepts exactly six hex digits;
      the colour keeps the trimmed text, with a '#' put in front when it had none. */
  function ParseHexColor(hex: string, name: string): BucketResult<Color>
  {
    var hex := Trim(hex);
    if hex == [] then
      Err(InvalidColor("Empty color string"))
    else
      var clean := StripPrefixChar(hex, '#');
      if Utf8Len(clean) != 6 then
        Err(InvalidColor("Invalid hex color length: " + clean + " (expected 6 characters)"))
      else if !(forall i | 0 <= i < |clean| :: IsAsciiHexDigit(clean[i])) then
        Err(InvalidColor("Invalid hex color format: " + hex))
      else
        Ok(Color(name, if StartsWith(hex, "#") then hex else "#" + hex))
  }

  /** The text after trimming and dropping one leading '#': what `ParseHexColor` checks. */
  function HexBodyOf(hex: string): string
  {
    StripPrefixChar(Trim(hex), '#')
  }

  lemma HexDigitsAreAscii(s: string)
    requires forall i | 0 <= i < |s| :: IsAsciiHexDigit(s[i])
    ensures AllAscii(s) && Utf8Len(s) == |s|
  {
  }

  /** The two checks `parse_hex_color` makes of the body, the byte length and the digits,
      together say it is six hex digits. */
  lemma BodyChecks(clean: string)
    ensures IsHexBody(clean) <==>
      Utf8Len(clean) == 6 && forall i | 0 <= i < |clean| :: IsAsciiHexDigit(clean[i])
  {
    if forall i | 0 <= i < |clean| :: IsAsciiHexDigit(clean[i]) {
      HexDigitsAreAscii(clean);
    }
  }

  /** Which inputs are accepted, and what is stored for them: the colour is accepted exactly when
      the trimmed text minus one leading '#' is six hex digits; the name is passed through and the
      stored hex is that body behind a single '#', in the case it was written in. Every failure is
      an `InvalidColor`. */
  lemma ParseHexColorSpec(hex: string, name: string)
    ensures ParseHexColor(hex, name).Ok? <==> IsHexBody(HexBodyOf(hex))
    ensures ParseHexColor(hex, name).Ok? ==>
      ParseHexColor(hex, name).value == Color(name, "#" + HexBodyOf(hex))
    ensures ParseHexColor(hex, name).Err? ==> ParseHexColor(hex, name).error.InvalidColor?
  {
    var t := Trim(hex);
    var clean := StripPrefixChar(t, '#');
    assert HexBodyOf(hex) == clean;
    BodyChecks(clean);
    if t == [] {
      assert clean == [];
    } else if IsHexBody(clean) {
      if StartsWith(t, "#") {
        assert t == "#" + clean;
      } else {
        assert clean == t;
      }
    }
  }

  /** Blank text is rejected as empty. */
  lemma ParseHexColorRejectsBlank(hex: string, name: string)
    requires AllWhitespace(hex)
    ensures ParseHexColor(hex, name) == Err(InvalidColor("Empty color string"))
  {
    TrimEmptyIffBlank(hex);
  }

  /** Every colour `ParseHexColor` accepts is stored in canonical form. */
  lemma ParsedHexIsCanonical(hex: string, name: string)
    requires ParseHexColor(hex, name).Ok?
    ensures IsCanonicalHex(ParseHexColor(hex, name).value.hex)
  {
    ParseHexColorSpec(hex, name);
    assert ("#" + HexBodyOf(hex))[1..] == HexBodyOf(hex);
  }

  /** A canonical hex (such as every built-in colour) is accepted and stored unchanged. */
  lemma ParseCanonicalHex(hex: string, name: string)
    requires IsCanonicalHex(hex)
    ensures ParseHexColor(hex, name) == Ok(Color(name, hex))
  {
    ParseHexColorSpec(hex, name);
    assert HexBodyOf(hex) == hex[1..] by {
      HexDigitNotBlank(hex[6]);
      TrimFixesUntrimmed(hex);
    }
    assert hex == "#" + hex[1..];
  }

  // ---------------------------------------------------------------- hex_to_rgb

  /** What `hex_to_rgb` needs of its input so as not to panic: when the remainder is six bytes,
      the slice `[0..2]` must not cut a character, and neither may `[2..4]` once the red pair has
      been read. (Offset 6 is the end, always a boundary; a red pair that fails returns before
      `[2..4]` is taken.) */
  predicate HexToRgbDefined(hex: string)
  {
    var clean := StripPrefixChar(hex, '#');
    Utf8Len(clean) == 6 ==>
      && ByteSlice(clean, 0, 2).Some?
      && (ParseChannel(ByteSlice(clean, 0, 2).value, "red").Ok? ==> ByteSlice(clean, 2, 4).Some?)
  }

  /** `u8::from_str_radix(pair, 16)` with the error naming the channel. */
  function ParseChannel(pair: string, channel: string): BucketResult<byte>
  {
    match ParseUnsigned(pair, 16, 0x100)
    case Some(v) => Ok(v)
    case None => Err(InvalidColor("Invalid " + channel + " component: " + pair))
  }

  /** `hex_to_rgb`: no trimming; one optional '#'; six bytes; each pair of bytes read in base 16. */
  function HexToRgb(hex: string): (r: BucketResult<(byte, byte, byte)>)
    requires HexToRgbDefined(hex)
    ensures r.Err? ==> r.error.InvalidColor?
  {
    var clean := StripPrefixChar(hex, '#');
    if Utf8Len(clean) != 6 then
      Err(InvalidColor("Invalid hex color length for RGB conversion: " + hex))
    else
      var r :- ParseChannel(ByteSlice(clean, 0, 2).value, "red");
      var g :- ParseChannel(ByteSlice(clean, 2, 4).value, "green");
      EndIsBoundary(clean);
      var b :- ParseChannel(ByteSlice(clean, 4, 6).value, "blue");
      Ok((r, g, b))
  }

  /** On an ASCII remainder every byte is a character: the decoder never panics, and on six
      characters its slices are the three pairs of characters. */
  lemma AsciiRemainder(hex: string)
    requires AllAscii(StripPrefixChar(hex, '#'))
    ensures HexToRgbDefined(hex)
    ensures var clean := StripPrefixChar(hex, '#');
      |clean| == 6 ==> && ByteSlice(clean, 0, 2) == Some(clean[0..2])
                       && ByteSlice(clean, 2, 4) == Some(clean[2..4])
                       && ByteSlice(clean, 4, 6) == Some(clean[4..6])
  {
    var clean := StripPrefixChar(hex, '#');
    if |clean| == 6 {
      AsciiByteSlice(clean, 0, 2);
      AsciiByteSlice(clean, 2, 4);
      AsciiByteSlice(clean, 4, 6);
    }
  }

  /** On six ASCII characters whose three pairs all read in base 16, the decoder gives the three
      values. */
  lemma AsciiPairsDecode(hex: string)
    requires var clean := StripPrefixChar(hex, '#');
      && AllAscii(clean) && |clean| == 6
      && ParseUnsigned(clean[0..2], 16, 0x100).Some?
      && ParseUnsigned(clean[2..4], 16, 0x100).Some?
      && ParseUnsigned(clean[4..6], 16, 0x100).Some?
    ensures HexToRgbDefined(hex)
    ensures var clean := StripPrefixChar(hex, '#');
      HexToRgb(hex) == Ok((ParseUnsigned(clean[0..2], 16, 0x100).value,
                           ParseUnsigned(clean[2..4], 16, 0x100).value,
                           ParseUnsigned(clean[4..6], 16, 0x100).value))
  {
    AsciiRemainder(hex);
  }

  /** Six bytes that are three two-byte characters slice on character boundaries: "ééé" is not
      a panic but an `InvalidColor` naming its first character. */
  lemma WideCharactersRejected(hex: string)
    requires hex == "\U{E9}\U{E9}\U{E9}"
    ensures HexToRgbDefined(hex) && HexToRgb(hex) == Err(InvalidColor("Invalid red component: \U{E9}"))
  {
    assert StripPrefixChar(hex, '#') == hex;
    var e := "\U{E9}";
    assert Utf8Width(e[0]) == 2 && e[1..] == [] && Utf8Len(e) == 2;
    assert hex[1..] == e + e && (e + e)[1..] == e && Utf8Len(e + e) == 4;
    assert Utf8Len(hex) == 6;
    BoundaryIndexComplete(hex, 2, 1);
    assert hex[..1] == "\U{E9}" && hex[0..1] == "\U{E9}";
    assert ByteSlice(hex, 0, 2) == Some(e);
    assert !AllDigits(e, 16) && ParseUnsigned(e, 16, 0x100).None?;
    assert "Invalid " + "red" + " component: " + e == "Invalid red component: \U{E9}";
    assert ParseChannel(e, "red") == Err(InvalidColor("Invalid red component: \U{E9}"));
    assert HexToRgb(hex).Err? && HexToRgb(hex).error == ParseChannel(e, "red").error;
  }

  /** A two-byte character across offset 2 makes `hex_clean[0..2]` panic: "a\U{E9}bcd" is six bytes
      the decoder is not defined on. */
  lemma SplitCharacterPanics(hex: string)
    requires hex == "a\U{E9}bcd"
    ensures !HexToRgbDefined(hex)
  {
    assert StripPrefixChar(hex, '#') == hex;
    assert Utf8Len(hex) == 6 by {
      assert hex[1..][1..][1..][1..][1..] == [];
    }
    assert !IsCharBoundary(hex, 2) by {
      forall k | 0 <= k <= |hex| ensures Utf8Len(hex[..k]) != 2 {
        if k >= 2 {
          assert hex[..k] == hex[..2] + hex[2..k];
          Utf8LenAppend(hex[..2], hex[2..k]);
          assert hex[..2][1..][1..] == [];
        } else if k == 1 {
          assert hex[..1][1..] == [];
        }
      }
    }
    ByteSliceSpec(hex, 0, 2);
  }

  function UpperHexDigit(v: nat): (c: char)
    requires v < 16
    ensures IsAsciiHexDigit(c) && DigitValue(c, 16) == Some(v)
  {
    if v < 10 then (48 + v) as char else (55 + v) as char
  }

  function HexByte(v: byte): string
  {
    [UpperHexDigit(v / 16), UpperHexDigit(v % 16)]
  }

  /** `rgb_to_hex`: `#RRGGBB`, two upper-case digits per channel. */
  function RgbToHex(r: byte, g: byte, b: byte): string
  {
    "#" + HexByte(r) + HexByte(g) + HexByte(b)
  }

  lemma PairValue(pair: string)
    requires |pair| == 2 && IsAsciiHexDigit(pair[0]) && IsAsciiHexDigit(pair[1])
    ensures ParseUnsigned(pair, 16, 0x100) ==
      Some(DigitValue(pair[0], 16).value * 16 + DigitValue(pair[1], 16).value)
  {
    HexDigitValue(pair[0]);
    HexDigitValue(pair[1]);
    assert AllDigits(pair, 16);
    assert pair[..1] == [pair[0]];
    assert pair[..1][..0] == [];
    assert DigitsValue(pair[..1], 16) == DigitValue(pair[0], 16).value;
  }

  /** The encoder's output is canonical, upper-case and seven characters long. */
  lemma RgbToHexShape(r: byte, g: byte, b: byte)
    ensures IsCanonicalHex(RgbToHex(r, g, b))
    ensures ToUpper(RgbToHex(r, g, b)) == RgbToHex(r, g, b)
  {
  }

  /** Decoding an encoded colour gives the colour back. */
  lemma RgbHexRoundTrip(r: byte, g: byte, b: byte)
    ensures HexToRgbDefined(RgbToHex(r, g, b))
    ensures HexToRgb(RgbToHex(r, g, b)) == Ok((r, g, b))
  {
    var h := RgbToHex(r, g, b);
    var clean := StripPrefixChar(h, '#');
    assert clean == HexByte(r) + HexByte(g) + HexByte(b);
    assert clean[0..2] == HexByte(r) && clean[2..4] == HexByte(g) && clean[4..6] == HexByte(b);
    HexByteReads(r);
    HexByteReads(g);
    HexByteReads(b);
    HexDigitsAreAscii(clean);
    AsciiPairsDecode(h);
  }

  /** The two digits of a byte read back as the byte. */
  lemma HexByteReads(v: byte)
    ensures IsAsciiHexDigit(HexByte(v)[0]) && IsAsciiHexDigit(HexByte(v)[1])
    ensures ParseUnsigned(HexByte(v), 16, 0x100) == Some(v as nat)
  {
    PairValue(HexByte(v));
  }

  lemma UpperHexDigitOfValue(c: char)
    requires IsAsciiHexDigit(c)
    ensures UpperHexDigit(DigitValue(c, 16).value) == UpperChar(c)
  {
  }

  /** A pair of hex digits re-encodes to itself in upper case. */
  lemma PairReencodes(pair: string)
    requires |pair| == 2 && IsAsciiHexDigit(pair[0]) && IsAsciiHexDigit(pair[1])
    ensures ParseUnsigned(pair, 16, 0x100).Some?
    ensures HexByte(ParseUnsigned(pair, 16, 0x100).value) == ToUpper(pair)
  {
    PairValue(pair);
    var hi, lo := DigitValue(pair[0], 16).value, DigitValue(pair[1], 16).value;
    SplitByte(hi, lo);
    UpperHexDigitOfValue(pair[0]);
    UpperHexDigitOfValue(pair[1]);
    assert HexByte(hi * 16 + lo) == [UpperHexDigit(hi), UpperHexDigit(lo)];
  }

  lemma SplitByte(hi: nat, lo: nat)
    requires hi < 16 && lo < 16
    ensures (hi * 16 + lo) / 16 == hi && (hi * 16 + lo) % 16 == lo
  {
  }

  /** The value of a pair of hex digits. */
  function PairByte(pair: string): byte
    requires |pair| == 2 && IsAsciiHexDigit(pair[0]) && IsAsciiHexDigit(pair[1])
  {
    PairValue(pair);
    ParseUnsigned(pair, 16, 0x100).value
  }

  /** On six hex digits, with or without '#', `hex_to_rgb` reads the three pairs. */
  lemma HexToRgbOfBody(hex: string)
    requires IsHexBody(StripPrefixChar(hex, '#'))
    ensures HexToRgbDefined(hex)
    ensures var clean := StripPrefixChar(hex, '#');
      HexToRgb(hex) == Ok((PairByte(clean[0..2]), PairByte(clean[2..4]), PairByte(clean[4..6])))
  {
    var clean := StripPrefixChar(hex, '#');
    HexDigitsAreAscii(clean);
    PairValue(clean[0..2]);
    PairValue(clean[2..4]);
    PairValue(clean[4..6]);
    AsciiPairsDecode(hex);
  }

  /** Upper-casing six characters pair by pair. */
  lemma ToUpperByPairs(clean: string)
    requires |clean| == 6
    ensures ToUpper(clean) == ToUpper(clean[0..2]) + ToUpper(clean[2..4]) + ToUpper(clean[4..6])
  {
  }

  /** Any six hex digits, with or without '#', decode; encoding the result gives the digits back
      in upper case behind one '#'. */
  lemma HexRgbRoundTrip(hex: string)
    requires IsHexBody(StripPrefixChar(hex, '#'))
    ensures HexToRgbDefined(hex)
    ensures HexToRgb(hex).Ok?
    ensures var c := HexToRgb(hex).value;
      RgbToHex(c.0, c.1, c.2) == "#" + ToUpper(StripPrefixChar(hex, '#'))
  {
    HexToRgbOfBody(hex);
    PairsReencode(StripPrefixChar(hex, '#'));
  }

  /** The three pair values of six hex digits encode back to the digits in upper case. */
  lemma PairsReencode(clean: string)
    requires IsHexBody(clean)
    ensures RgbToHex(PairByte(clean[0..2]), PairByte(clean[2..4]), PairByte(clean[4..6])) == "#" + ToUpper(clean)
  {
    var p0, p1, p2 := clean[0..2], clean[2..4], clean[4..6];
    PairReencodes(p0);
    PairReencodes(p1);
    PairReencodes(p2);
    assert HexByte(PairByte(p0)) + HexByte(PairByte(p1)) + HexByte(PairByte(p2))
        == ToUpper(p0) + ToUpper(p1) + ToUpper(p2);
    ToUpperByPairs(clean);
  }

  /** Every colour accepted by the validator is accepted by the decoder. */
  lemma ParsedHexDecodes(hex: string, name: string)
    requires ParseHexColor(hex, name).Ok?
    ensures HexToRgbDefined(ParseHexColor(hex, name).value.hex)
    ensures HexToRgb(ParseHexColor(hex, name).value.hex).Ok?
  {
    ParsedHexIsCanonical(hex, name);
    HexRgbRoundTrip(ParseHexColor(hex, name).value.hex);
  }

  /** The decoder is more lenient than the validator: `from_str_radix` takes a leading '+', so
      "+F+F+F" decodes to (15, 15, 15) although `ParseHexColor` rejects it. */
  lemma DecoderAcceptsSignedPairs()
    ensures HexToRgbDefined("+F+F+F") && HexToRgb("+F+F+F") == Ok((15, 15, 15))
  {
    var s := "+F+F+F";
    assert StripPrefixChar(s, '#') == s && AllAscii(s);
    assert s[0..2] == "+F" && s[2..4] == "+F" && s[4..6] == "+F";
    assert ParseUnsigned("+F", 16, 0x100) == Some(15) by {
      assert "+F"[1..] == "F";
      assert "F"[..0] == [];
    }
    AsciiPairsDecode(s);
  }

  lemma ValidatorRejectsSignedPairs(s: string)
    requires s == "+F+F+F"
    ensures ParseHexColor(s, "x").Err?
  {
    assert s[0] == '+' && s[5] == 'F';
    RejectsNonDigit(s, "x", 0);
  }

  /** Text without outer whitespace or a leading '#' that holds a character other than a hex
      digit is rejected. */
  lemma RejectsNonDigit(s: string, name: string, i: nat)
    requires HasNoOuterWhitespace(s) && i < |s| && s[0] != '#' && !IsAsciiHexDigit(s[i])
    ensures ParseHexColor(s, name).Err?
  {
    ParseHexColorSpec(s, name);
    assert !IsHexBody(HexBodyOf(s)) by {
      TrimFixesUntrimmed(s);
      assert HexBodyOf(s) == s;
      if |s| == 6 {
        assert !IsAsciiHexDigit(s[i]);
      }
    }
  }

  // ---------------------------------------------------------------- the examples of the unit tests

  /** Six bare hex digits are accepted and stored with a '#' in front. */
  lemma ParseBareHexBody(s: string, name: string)
    requires IsHexBody(s)
    ensures ParseHexColor(s, name) == Ok(Color(name, "#" + s))
  {
    ParseHexColorSpec(s, name);
    assert HexBodyOf(s) == s by {
      HexDigitNotBlank(s[0]);
      HexDigitNotBlank(s[5]);
      TrimFixesUntrimmed(s);
    }
  }

  lemma HexDigitNotBlank(c: char)
    requires IsAsciiHexDigit(c)
    ensures !IsWhitespace(c) && c != '#'
  {
  }

  /** The unit-test input without '#'. */
  lemma ParseHexColorExample(s: string)
    requires s == "BF616A"
    ensures ParseHexColor(s, "Red") == Ok(Color("Red", "#" + s))
  {
    assert IsHexBody(s);
    ParseBareHexBody(s, "Red");
  }

  /** The unit-test input with '#'. */
  lemma ParseHexColorHashExample(s: string)
    requires s == "#BF616A"
    ensures ParseHexColor(s, "Red") == Ok(Color("Red", s))
  {
    assert IsHexBody(s[1..]);
    ParseCanonicalHex(s, "Red");
  }

  /** Four digits are too short and seven too long. */
  lemma ParseHexColorRejectsShort(s: string)
    requires s == "BF61" || s == "BF616A1"
    ensures ParseHexColor(s, "Red").Err?
  {
    ParseHexColorSpec(s, "Red");
    assert !IsHexBody(HexBodyOf(s)) by {
      assert s[0] == 'B' && s[|s| - 1] == '1';
      TrimFixesUntrimmed(s);
      assert HexBodyOf(s) == s;
    }
  }

  /** Six characters that are not all hex digits. */
  lemma ParseHexColorRejectsNonHex(s: string)
    requires s == "GGGGGG" || s == "BF616Z"
    ensures ParseHexColor(s, "Red").Err?
  {
    assert s[5] in {'G', 'Z'} && s[0] in {'G', 'B'};
    RejectsNonDigit(s, "Red", 5);
  }

  /** The leading '#' is optional: a body without one decodes as it does after a '#'. */
  lemma HashIsOptional(body: string)
    requires HexToRgbDefined(body) && (body == [] || body[0] != '#')
    ensures HexToRgbDefined("#" + body)
    ensures HexToRgb(body).Ok? <==> HexToRgb("#" + body).Ok?
    ensures HexToRgb(body).Ok? ==> HexToRgb(body).value == HexToRgb("#" + body).value
  {
    assert StripPrefixChar("#" + body, '#') == body;
  }

  /** The nord red decodes to (191, 97, 106). */
  lemma HexToRgbExample(hex: string)
    requires hex == "#BF616A"
    ensures HexToRgbDefined(hex) && HexToRgb(hex) == Ok((191, 97, 106))
  {
    assert RgbToHex(191, 97, 106) == hex;
    RgbHexRoundTrip(191, 97, 106);
  }
}
