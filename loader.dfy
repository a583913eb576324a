/** `PaletteLoader` (src/palette/loader.rs): palettes stored as a root directory holding one
    directory per palette, each holding `.txt` colour files with one hex colour per line. */
module Loader {
  import opened Wrappers
  import opened Types
  import opened Text
  import opened Errors
  import opened HexParser
  import opened Converter
  import opened FileSystem
  import opened Listing

  // ---------------------------------------------------------------- colour files

  /** A trimmed line `load_color_file` passes over: blank, a `//` comment, or a lone '#'. */
  predicate IsSkipped(line: string)
  {
    line == [] || StartsWith(line, "//") || (StartsWith(line, "#") && Utf8Len(line) == 1)
  }

  /** The name of the colour accepted after `index` others in a file with stem `stem`: the stem
      itself for the first, the stem followed by the index after that. */
  function ColorName(stem: string, index: nat): string
  {
    if index == 0 then stem else stem + NatToString(index)
  }

  /** The colours `load_color_file` collects from `lines`, line by line: a skipped line or one
      `parse_hex_color` rejects adds nothing; any other adds its colour, named after the number
      of colours before it. */
  function ColorsOf(lines: seq<string>, stem: string): seq<Color>
    decreases |lines|
  {
    if lines == [] then []
    else
      var before := ColorsOf(lines[..|lines| - 1], stem);
      var line := Trim(lines[|lines| - 1]);
      if IsSkipped(line) then before
      else match ParseHexColor(line, ColorName(stem, |before|))
        case Ok(c) => before + [c]
        case Err(_) => before
  }

  /** Independently of any name and of the skip rule, the hex a line holds: its trimmed text less
      one leading '#', behind a '#', when that is six hex digits. */
  function AcceptedHex(line: string): Option<string>
  {
    var body := HexBodyOf(line);
    if IsHexBody(body) then Some("#" + body) else None
  }

  /** The hexes of the lines that hold one, in order. */
  function AcceptedHexes(lines: seq<string>): seq<string>
  {
    if lines == [] then []
    else
      var rest := AcceptedHexes(lines[1..]);
      match AcceptedHex(lines[0])
      case Some(hex) => [hex] + rest
      case None => rest
  }

  lemma {:induction false} AcceptedHexesAppend(lines: seq<string>, line: string)
    ensures AcceptedHexes(lines + [line]) ==
      AcceptedHexes(lines) + (match AcceptedHex(line) case Some(hex) => [hex] case None => [])
    decreases |lines|
  {
    var all := lines + [line];
    if lines == [] {
      assert all == [line] && all[1..] == [];
    } else {
      assert all[0] == lines[0] && all[1..] == lines[1..] + [line];
      AcceptedHexesAppend(lines[1..], line);
    }
  }

  /** Every line the skip rule passes over would have been rejected anyway. */
  lemma SkippedLinesNeverParse(line: string)
    requires IsSkipped(Trim(line))
    ensures AcceptedHex(line).None?
  {
    var t := Trim(line);
    if t != [] && StartsWith(t, "#") && Utf8Len(t) == 1 {
      assert |t| == 1;
    }
  }

  /** A line adds a colour exactly when it holds a hex, and the colour carries that hex. */
  lemma LineContribution(line: string, name: string)
    ensures (!IsSkipped(Trim(line)) && ParseHexColor(Trim(line), name).Ok?) <==> AcceptedHex(line).Some?
    ensures AcceptedHex(line).Some? ==> ParseHexColor(Trim(line), name) == Ok(Color(name, AcceptedHex(line).value))
  {
    var t := Trim(line);
    ParseHexColorSpec(t, name);
    assert HexBodyOf(t) == HexBodyOf(line) by {
      TrimIdempotent(line);
    }
    if IsSkipped(t) {
      SkippedLinesNeverParse(line);
    }
  }

  /** One more line of a file: what `ColorsOf` adds for it. */
  lemma ColorsOfStep(lines: seq<string>, stem: string, n: nat)
    requires n < |lines|
    ensures var before := ColorsOf(lines[..n], stem);
      ColorsOf(lines[..n + 1], stem) ==
        if AcceptedHex(lines[n]).Some? then before + [Color(ColorName(stem, |before|), AcceptedHex(lines[n]).value)]
        else before
  {
    assert lines[..n + 1][..n] == lines[..n];
    LineContribution(lines[n], ColorName(stem, |ColorsOf(lines[..n], stem)|));
  }

  /** A skipped line adds nothing. */
  lemma SkippedLineStep(lines: seq<string>, stem: string, n: nat)
    requires n < |lines| && IsSkipped(Trim(lines[n]))
    ensures ColorsOf(lines[..n + 1], stem) == ColorsOf(lines[..n], stem)
  {
    ColorsOfUnfold(lines, stem, n);
  }

  /** Any other line adds the colour `parse_hex_color` gives it, if any. */
  lemma ParsedLineStep(lines: seq<string>, stem: string, n: nat, colors: seq<Color>, parsed: BucketResult<Color>)
    requires n < |lines| && !IsSkipped(Trim(lines[n]))
    requires colors == ColorsOf(lines[..n], stem)
    requires parsed == ParseHexColor(Trim(lines[n]), ColorName(stem, |colors|))
    ensures ColorsOf(lines[..n + 1], stem) == if parsed.Ok? then colors + [parsed.value] else colors
  {
    ColorsOfUnfold(lines, stem, n);
  }

  /** One more line of a file, as `load_color_file` handles it. */
  lemma ColorsOfUnfold(lines: seq<string>, stem: string, n: nat)
    requires n < |lines|
    ensures var before := ColorsOf(lines[..n], stem);
      var line := Trim(lines[n]);
      ColorsOf(lines[..n + 1], stem) ==
        if IsSkipped(line) then before
        else match ParseHexColor(line, ColorName(stem, |before|))
          case Ok(c) => before + [c]
          case Err(_) => before
  {
    assert lines[..n + 1][..n] == lines[..n];
  }

  /** The colours of a file are its accepted hexes in file order, the k-th named `ColorName(stem,
      k)` (Aurora, Aurora1, Aurora2): a rejected line uses up no index. */
  lemma {:induction false} ColorsOfSpec(lines: seq<string>, stem: string)
    ensures |ColorsOf(lines, stem)| == |AcceptedHexes(lines)|
    ensures forall k | 0 <= k < |AcceptedHexes(lines)| ::
      ColorsOf(lines, stem)[k] == Color(ColorName(stem, k), AcceptedHexes(lines)[k])
    decreases |lines|
  {
    if lines != [] {
      var n := |lines| - 1;
      var init := lines[..n];
      ColorsOfSpec(init, stem);
      AcceptedHexesAppend(init, lines[n]);
      ColorsOfStep(lines, stem, n);
      InitAndLast(lines);
      assert lines[..n + 1] == lines;
      NamedAppend(ColorsOf(init, stem), AcceptedHexes(init), stem, AcceptedHex(lines[n]),
        ColorsOf(lines, stem), AcceptedHexes(lines));
    }
  }

  /** Naming is kept when a line adds its hex, or nothing, at the end. */
  lemma NamedAppend(before: seq<Color>, hexes: seq<string>, stem: string, hex: Option<string>,
                    colors: seq<Color>, allHexes: seq<string>)
    requires |before| == |hexes|
    requires forall k | 0 <= k < |hexes| :: before[k] == Color(ColorName(stem, k), hexes[k])
    requires colors == if hex.Some? then before + [Color(ColorName(stem, |before|), hex.value)] else before
    requires allHexes == if hex.Some? then hexes + [hex.value] else hexes
    ensures |colors| == |allHexes|
    ensures forall k | 0 <= k < |allHexes| :: colors[k] == Color(ColorName(stem, k), allHexes[k])
  {
  }

  /** Every hex a colour file contributes is '#' and six hex digits. */
  lemma {:induction false} AcceptedHexesCanonical(lines: seq<string>)
    ensures forall k | 0 <= k < |AcceptedHexes(lines)| :: IsCanonicalHex(AcceptedHexes(lines)[k])
  {
    if lines != [] {
      AcceptedHexesCanonical(lines[1..]);
      var body := HexBodyOf(lines[0]);
      assert ("#" + body)[1..] == body;
      assert AcceptedHex(lines[0]).Some? ==> IsCanonicalHex(AcceptedHex(lines[0]).value);
    }
  }

  /** `load_color_file` on a file: its read error, or its colours, or an `InvalidColor` error when
      no line holds one. */
  function ColorFile(fs: Fs, filePath: string, colorName: string): BucketResult<seq<Color>>
  {
    match ReadToString(fs, filePath)
    case Err(e) => Err(IoError(e))
    case Ok(content) =>
      var colors := ColorsOf(Lines(content), colorName);
      if colors == [] then Err(InvalidColor("No valid colors found in file: " + filePath))
      else Ok(colors)
  }

  /** What a colour file yields: an error exactly when it cannot be read or holds no accepted
      line; otherwise its accepted hexes, in '#' and six-digit form, named after the stem. */
  lemma ColorFileSpec(fs: Fs, filePath: string, colorName: string)
    ensures ReadToString(fs, filePath).Err? ==>
      ColorFile(fs, filePath, colorName) == Err(IoError(ReadToString(fs, filePath).error))
    ensures ReadToString(fs, filePath).Ok? ==>
      var hexes := AcceptedHexes(Lines(ReadToString(fs, filePath).value));
      && (hexes == [] ==>
            ColorFile(fs, filePath, colorName) == Err(InvalidColor("No valid colors found in file: " + filePath)))
      && (hexes != [] ==> ColorFile(fs, filePath, colorName).Ok?)
      && (ColorFile(fs, filePath, colorName).Ok? ==>
            var colors := ColorFile(fs, filePath, colorName).value;
            && |colors| == |hexes|
            && forall k | 0 <= k < |colors| ::
                 colors[k] == Color(ColorName(colorName, k), hexes[k]) && IsCanonicalHex(colors[k].hex))
  {
    if ReadToString(fs, filePath).Ok? {
      var lines := Lines(ReadToString(fs, filePath).value);
      ColorsOfSpec(lines, colorName);
      AcceptedHexesCanonical(lines);
    }
  }

  /** Lines each accepted as they stand are the accepted hexes of the file. */
  lemma {:induction false} LinesAcceptedAsTheyAre(lines: seq<string>)
    requires forall k | 0 <= k < |lines| :: AcceptedHex(lines[k]) == Some(lines[k])
    ensures AcceptedHexes(lines) == lines
    decreases |lines|
  {
    if lines != [] {
      var n := |lines| - 1;
      var init := lines[..n];
      assert forall k | 0 <= k < n :: init[k] == lines[k];
      LinesAcceptedAsTheyAre(init);
      AcceptedHexesAppend(init, lines[n]);
      InitAndLast(lines);
    }
  }

  lemma InitAndLast<T>(s: seq<T>)
    requires s != []
    ensures s == s[..|s| - 1] + [s[|s| - 1]]
  {
  }

  /** A file whose lines are all already '#' and six hex digits yields exactly those colours,
      named after the stem and their position. */
  lemma CanonicalLinesColors(lines: seq<string>, stem: string)
    requires forall k | 0 <= k < |lines| :: IsCanonicalHex(lines[k])
    ensures |ColorsOf(lines, stem)| == |lines|
    ensures forall k | 0 <= k < |lines| :: ColorsOf(lines, stem)[k] == Color(ColorName(stem, k), lines[k])
  {
    forall k | 0 <= k < |lines|
      ensures AcceptedHex(lines[k]) == Some(lines[k])
    {
      CanonicalLineAccepted(lines[k]);
    }
    LinesAcceptedAsTheyAre(lines);
    ColorsOfSpec(lines, stem);
  }

  /** The file of the loader's test, "Aurora.txt" holding three colours, gives Aurora, Aurora1 and
      Aurora2 in order. */
  lemma AuroraExample(lines: seq<string>)
    requires lines == ["#BF616A", "#D08770", "#EBCB8B"]
    ensures ColorsOf(lines, "Aurora") ==
      [Color("Aurora", "#BF616A"), Color("Aurora1", "#D08770"), Color("Aurora2", "#EBCB8B")]
  {
    AuroraLinesCanonical(lines);
    CanonicalLinesColors(lines, "Aurora");
    AuroraNames();
    var colors := ColorsOf(lines, "Aurora");
    assert colors[0] == Color("Aurora", "#BF616A");
    assert colors[1] == Color("Aurora1", "#D08770");
    assert colors[2] == Color("Aurora2", "#EBCB8B");
  }

  lemma AuroraLinesCanonical(lines: seq<string>)
    requires lines == ["#BF616A", "#D08770", "#EBCB8B"]
    ensures forall k | 0 <= k < |lines| :: IsCanonicalHex(lines[k])
  {
    assert IsCanonicalHex(lines[0]) && IsCanonicalHex(lines[1]) && IsCanonicalHex(lines[2]);
  }

  lemma AuroraNames()
    ensures ColorName("Aurora", 1) == "Aurora1" && ColorName("Aurora", 2) == "Aurora2"
  {
    assert NatToString(1) == "1" && NatToString(2) == "2";
    assert "Aurora" + "1" == "Aurora1" && "Aurora" + "2" == "Aurora2";
  }

  /** A line that is already '#' and six hex digits is accepted as it is. */
  lemma CanonicalLineAccepted(line: string)
    requires IsCanonicalHex(line)
    ensures AcceptedHex(line) == Some(line)
  {
    ParseCanonicalHex(line, "");
    ParseHexColorSpec(line, "");
  }

  // ---------------------------------------------------------------- palette directories

  /** The colours entry `name` of palette directory `dir` adds: those of a `.txt` file that
      loads, named after the file's stem; nothing for anything else. */
  function EntryColors(fs: Fs, dir: string, name: string): seq<Color>
  {
    var path := JoinPath(dir, name);
    if IsFile(fs, path) && Extension(name) == Some("txt") then
      match ColorFile(fs, path, FileStem(name))
      case Ok(colors) => colors
      case Err(_) => []
    else []
  }

  /** `EntryColors` of a directory, as the step of the walk over its listing. */
  function ColorsFrom(fs: Fs, dir: string): string -> seq<Color>
  {
    name => EntryColors(fs, dir, name)
  }

  /** `load_palette` of directory `dir` named `name`: the colours of its entries in listing order,
      or the error reading the directory or its first unreadable entry, or `PaletteNotFound` when
      no colour is found. */
  function PaletteIn(fs: Fs, dir: string, name: string): BucketResult<Palette>
  {
    match ReadDir(fs, dir)
    case Err(e) => Err(IoError(e))
    case Ok(entries) =>
      match Gather(entries, ColorsFrom(fs, dir))
      case Err(e) => Err(IoError(e))
      case Ok(colors) =>
        if colors == [] then Err(PaletteNotFound("No valid colors found in palette: " + name))
        else Ok(Palette(name, dir, colors))
  }

  /** Every colour an entry adds is '#' and six hex digits. */
  lemma EntryColorsCanonical(fs: Fs, dir: string, name: string)
    ensures forall c | c in EntryColors(fs, dir, name) :: IsCanonicalHex(c.hex)
  {
    var path := JoinPath(dir, name);
    ColorFileSpec(fs, path, FileStem(name));
  }

  /** A palette every colour of which is '#' and six hex digits decodes, and a converter built
      from it succeeds when it has a colour. */
  lemma CanonicalPaletteBuilds(palette: Palette)
    requires forall c | c in palette.colors :: IsCanonicalHex(c.hex)
    ensures Decodable(palette.colors)
    ensures palette.colors != [] ==> NearestColorConverter.FromPalette(palette).Ok?
  {
    forall i | 0 <= i < |palette.colors|
      ensures HexToRgbDefined(palette.colors[i].hex) && HexToRgb(palette.colors[i].hex).Ok?
    {
      var hex := palette.colors[i].hex;
      assert palette.colors[i] in palette.colors;
      assert StripPrefixChar(hex, '#') == hex[1..];
      HexRgbRoundTrip(hex);
    }
    DecodeColorsOk(palette.colors);
  }

  /** `load_palette` succeeds exactly when the directory and each of its entries can be read and
      some entry adds a colour. The palette keeps the given name and the directory as its path,
      and a converter built from it cannot fail. */
  lemma PaletteInSpec(fs: Fs, dir: string, name: string)
    ensures PaletteIn(fs, dir, name).Ok? <==>
      && ReadDir(fs, dir).Ok?
      && (forall i | 0 <= i < |ReadDir(fs, dir).value| :: ReadDir(fs, dir).value[i].Ok?)
      && exists i | 0 <= i < |ReadDir(fs, dir).value| ::
           EntryColors(fs, dir, ReadDir(fs, dir).value[i].value) != []
    ensures PaletteIn(fs, dir, name).Ok? ==>
      var p := PaletteIn(fs, dir, name).value;
      && p.name == name && p.path == dir && p.colors != []
      && (forall c | c in p.colors :: IsCanonicalHex(c.hex))
      && Decodable(p.colors) && NearestColorConverter.FromPalette(p).Ok?
  {
    if ReadDir(fs, dir).Ok? {
      var entries := ReadDir(fs, dir).value;
      var f := ColorsFrom(fs, dir);
      GatherOk(entries, f);
      if Gather(entries, f).Ok? {
        GatherEmpty(entries, f);
        forall i | 0 <= i < |entries| && entries[i].Ok?
          ensures forall c | c in f(entries[i].value) :: IsCanonicalHex(c.hex)
        {
          EntryColorsCanonical(fs, dir, entries[i].value);
        }
        GatherAll(entries, f, (c: Color) => IsCanonicalHex(c.hex));
        if PaletteIn(fs, dir, name).Ok? {
          CanonicalPaletteBuilds(PaletteIn(fs, dir, name).value);
        }
      }
    }
  }

  /** The step of `load_palette`'s walk at a `.txt` file: what loading the file gave, when it
      gave colours. */
  lemma ColorFileEntry(fs: Fs, dir: string, name: string, loaded: BucketResult<seq<Color>>)
    requires IsFile(fs, JoinPath(dir, name)) && Extension(name) == Some("txt")
    requires loaded == ColorFile(fs, JoinPath(dir, name), FileStem(name))
    ensures ColorsFrom(fs, dir)(name) == if loaded.Ok? then loaded.value else []
  {
  }

  /** The step of `load_palette`'s walk at any other entry: nothing. */
  lemma OtherEntry(fs: Fs, dir: string, name: string)
    requires !(IsFile(fs, JoinPath(dir, name)) && Extension(name) == Some("txt"))
    ensures ColorsFrom(fs, dir)(name) == []
  {
  }

  // ---------------------------------------------------------------- the palette root

  /** Whether entry `name` of the root is a palette directory that loads. */
  predicate Loads(fs: Fs, root: string, name: string)
  {
    IsDir(fs, JoinPath(root, name)) && PaletteIn(fs, JoinPath(root, name), name).Ok?
  }

  /** What entry `name` of the root adds to the map: its palette under the lower-cased name,
      when it is a palette directory that loads. */
  function PaletteFrom(fs: Fs, root: string): string -> Option<(string, Palette)>
  {
    name =>
      if Loads(fs, root, name) then Some((ToLower(name), PaletteIn(fs, JoinPath(root, name), name).value))
      else None
  }

  /** `load_palettes` of the root `root`: its palettes keyed by lower-cased directory name, a later
      directory replacing an earlier one under the same key; or `PaletteNotFound` for a missing
      root or when no palette loads, or the error reading the root or its first unreadable
      entry. */
  function PalettesUnder(fs: Fs, root: string): BucketResult<map<string, Palette>>
  {
    if !Exists(fs, root) then Err(PaletteNotFound("Palette directory not found: " + root))
    else match ReadDir(fs, root)
      case Err(e) => Err(IoError(e))
      case Ok(entries) =>
        match Collect(entries, PaletteFrom(fs, root))
        case Err(e) => Err(IoError(e))
        case Ok(palettes) =>
          if |palettes| == 0 then Err(PaletteNotFound("No valid palettes found"))
          else Ok(palettes)
  }

  /** Entry `i` of the listing is a palette directory that loads and whose name lower-cases to
      `key`. */
  predicate LoadsAs(fs: Fs, root: string, entries: seq<Result<string, string>>, i: int, key: string)
  {
    0 <= i < |entries| && entries[i].Ok? && Loads(fs, root, entries[i].value) && ToLower(entries[i].value) == key
  }

  /** The keys of the map are exactly the lower-cased names of the directories that load. The
      palette under a key keeps its original case, lower-cases to the key, and is the palette of
      the last directory in listing order with that key. */
  lemma PalettesUnderSpec(fs: Fs, root: string, key: string)
    requires PalettesUnder(fs, root).Ok?
    ensures var entries := ReadDir(fs, root).value;
      key in PalettesUnder(fs, root).value <==> exists i :: LoadsAs(fs, root, entries, i, key)
    ensures var entries := ReadDir(fs, root).value;
      key in PalettesUnder(fs, root).value ==>
        var p := PalettesUnder(fs, root).value[key];
        && ToLower(p.name) == key
        && exists i :: LoadsAs(fs, root, entries, i, key) && entries[i].value == p.name &&
             p == PaletteIn(fs, JoinPath(root, p.name), p.name).value &&
             forall j | i < j < |entries| :: !LoadsAs(fs, root, entries, j, key)
  {
    var entries := ReadDir(fs, root).value;
    var f := PaletteFrom(fs, root);
    assert forall i :: LoadsAs(fs, root, entries, i, key) == YieldsKey(entries, f, i, key);
    CollectKeys(entries, f, key);
    if key in PalettesUnder(fs, root).value {
      var i := CollectSource(entries, f, key);
      var name := entries[i].value;
      PaletteInSpec(fs, JoinPath(root, name), name);
      assert LoadsAs(fs, root, entries, i, key);
    }
  }

  /** A root that does not exist, and one where no palette loads, are errors. */
  lemma PalettesUnderErrors(fs: Fs, root: string)
    ensures !Exists(fs, root) ==>
      PalettesUnder(fs, root) == Err(PaletteNotFound("Palette directory not found: " + root))
    ensures (&& ReadDir(fs, root).Ok?
             && (forall i | 0 <= i < |ReadDir(fs, root).value| :: ReadDir(fs, root).value[i].Ok?)
             && forall i | 0 <= i < |ReadDir(fs, root).value| :: !Loads(fs, root, ReadDir(fs, root).value[i].value))
      ==> PalettesUnder(fs, root) == Err(PaletteNotFound("No valid palettes found"))
    ensures PalettesUnder(fs, root).Ok? ==> IsDir(fs, root) && |PalettesUnder(fs, root).value| > 0
  {
    if ReadDir(fs, root).Ok? {
      var entries := ReadDir(fs, root).value;
      var f := PaletteFrom(fs, root);
      CollectOk(entries, f);
      if Collect(entries, f).Ok? && |Collect(entries, f).value| > 0 {
        var key :| key in Collect(entries, f).value;
        var i := CollectSource(entries, f, key);
        assert Loads(fs, root, entries[i].value);
      }
    }
  }

  /** The loader's tests on a root that does not exist and on an empty root. */
  lemma MissingOrEmptyRootFails(root: string)
    ensures PalettesUnder(map[], root).Err?
    ensures PalettesUnder(map[root := Dir(Ok([]))], root) == Err(PaletteNotFound("No valid palettes found"))
  {
  }

  // ---------------------------------------------------------------- the loader

  /** `PaletteLoader`: the root directory of the palettes ("palettes" for `PaletteLoader::new`). */
  datatype PaletteLoader = PaletteLoader(paletteRoot: string)
  {
    /** `load_color_file`. */
    method LoadColorFile(fs: Fs, filePath: string, colorName: string) returns (r: BucketResult<seq<Color>>)
      ensures r == ColorFile(fs, filePath, colorName)
    {
      var content := ReadToString(fs, filePath);
      if content.Err? {
        return Err(IoError(content.error));
      }
      var colors := CollectColors(Lines(content.value), colorName);
      if colors == [] {
        return Err(InvalidColor("No valid colors found in file: " + filePath));
      }
      return Ok(colors);
    }

    /** The line loop of `load_color_file`: skip, name, parse, and keep what parses. */
    static method CollectColors(lines: seq<string>, colorName: string) returns (colors: seq<Color>)
      ensures colors == ColorsOf(lines, colorName)
    {
      colors := [];
      var colorIndex := 0;
      for n := 0 to |lines|
        invariant colors == ColorsOf(lines[..n], colorName)
        invariant colorIndex == |colors|
      {
        var line := Trim(lines[n]);
        if IsSkipped(line) {
          SkippedLineStep(lines, colorName, n);
          continue;
        }
        var finalColorName := if colors == [] then colorName else colorName + NatToString(colorIndex);
        assert finalColorName == ColorName(colorName, |colors|);
        var parsed := ParseHexColor(line, finalColorName);
        ParsedLineStep(lines, colorName, n, colors, parsed);
        if parsed.Ok? {
          colors := colors + [parsed.value];
          colorIndex := colorIndex + 1;
        }
      }
      assert lines[..|lines|] == lines;
    }

    /** `load_palette`. */
    method LoadPalette(fs: Fs, paletteDir: string, name: string) returns (r: BucketResult<Palette>)
      ensures r == PaletteIn(fs, paletteDir, name)
    {
      var listing := ReadDir(fs, paletteDir);
      if listing.Err? {
        return Err(IoError(listing.error));
      }
      var entries := listing.value;
      ghost var f := ColorsFrom(fs, paletteDir);
      var colors: seq<Color> := [];
      for i := 0 to |entries|
        invariant Gather(entries[..i], f) == Ok(colors)
      {
        var entry := entries[i];
        if entry.Err? {
          GatherStopsAt(entries, f, i);
          return Err(IoError(entry.error));
        }
        var path := JoinPath(paletteDir, entry.value);
        var more: seq<Color> := [];
        if IsFile(fs, path) && Extension(entry.value) == Some("txt") {
          var fileColors := LoadColorFile(fs, path, FileStem(entry.value));
          ColorFileEntry(fs, paletteDir, entry.value, fileColors);
          if fileColors.Ok? {
            more := fileColors.value;
          }
        } else {
          OtherEntry(fs, paletteDir, entry.value);
        }
        GatherStep(entries, f, i);
        colors := colors + more;
      }
      assert entries[..|entries|] == entries;
      if colors == [] {
        return Err(PaletteNotFound("No valid colors found in palette: " + name));
      }
      return Ok(Palette(name, paletteDir, colors));
    }

    /** `load_palettes`. */
    method LoadPalettes(fs: Fs) returns (r: BucketResult<map<string, Palette>>)
      ensures r == PalettesUnder(fs, paletteRoot)
    {
      if !Exists(fs, paletteRoot) {
        return Err(PaletteNotFound("Palette directory not found: " + paletteRoot));
      }
      var listing := ReadDir(fs, paletteRoot);
      if listing.Err? {
        return Err(IoError(listing.error));
      }
      var entries := listing.value;
      ghost var f := PaletteFrom(fs, paletteRoot);
      var palettes: map<string, Palette> := map[];
      for i := 0 to |entries|
        invariant Collect(entries[..i], f) == Ok(palettes)
      {
        var entry := entries[i];
        if entry.Err? {
          CollectStopsAt(entries, f, i);
          return Err(IoError(entry.error));
        }
        CollectStep(entries, f, i);
        var path := JoinPath(paletteRoot, entry.value);
        if IsDir(fs, path) {
          var palette := LoadPalette(fs, path, entry.value);
          if palette.Ok? {
            palettes := palettes[ToLower(entry.value) := palette.value];
          }
        }
      }
      assert entries[..|entries|] == entries;
      if |palettes| == 0 {
        return Err(PaletteNotFound("No valid palettes found"));
      }
      return Ok(palettes);
    }
  }
}
