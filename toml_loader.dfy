/** `TomlPaletteLoader` (src/palette/toml_loader.rs): user palettes written as TOML files in an
    ordered list of search directories. Reading the TOML text is serde's work, a call this model
    takes as the parameter `parse`: the document's `TomlPalette`, or the deserializer's message. */
module TomlLoader {
  import opened Wrappers
  import opened Types
  import opened Text
  import opened Errors
  import opened HexParser
  import opened FileSystem
  import opened Listing
  import Converter

  /** `TomlColor`: one `[[colors]]` table. */
  datatype TomlColor = TomlColor(name: string, hex: string, description: Option<string>)

  /** `TomlPalette`: a palette document. */
  datatype TomlPalette = TomlPalette(
    name: string,
    description: Option<string>,
    author: Option<string>,
    colors: seq<TomlColor>)

  // ---------------------------------------------------------------- the two conversions

  /** `From<TomlPalette> for Palette`: the name, the URI "user://" and the name, and the colours
      in order, each keeping its name and its hex as written; descriptions and author are
      dropped. */
  function ToPalette(t: TomlPalette): Palette
  {
    Palette(t.name, "user://" + t.name, seq(|t.colors|, i requires 0 <= i < |t.colors| => Color(t.colors[i].name, t.colors[i].hex)))
  }

  /** `From<&Palette> for TomlPalette`: the name and the colours in order, with no description
      and no author anywhere. */
  function FromPalette(p: Palette): TomlPalette
  {
    TomlPalette(p.name, None, None, seq(|p.colors|, i requires 0 <= i < |p.colors| => TomlColor(p.colors[i].name, p.colors[i].hex, None)))
  }

  /** A palette written out and read back is the same palette, now under its "user://" URI. */
  lemma PaletteRoundTrip(p: Palette)
    ensures ToPalette(FromPalette(p)) == p.(path := "user://" + p.name)
  {
    var q := ToPalette(FromPalette(p));
    assert q.colors == p.colors by {
      forall i | 0 <= i < |p.colors| ensures q.colors[i] == p.colors[i] { }
    }
  }

  /** A document read and written out again keeps its name and its colours' names and hexes in
      order; exactly the descriptions and the author are lost. */
  lemma TomlRoundTrip(t: TomlPalette)
    ensures var u := FromPalette(ToPalette(t));
      && u.name == t.name && u.description.None? && u.author.None?
      && |u.colors| == |t.colors|
      && forall i | 0 <= i < |t.colors| :: u.colors[i] == t.colors[i].(description := None)
  {
  }

  /** The conversion's test: a document "test" with red #FF0000 and blue #0000FF. */
  lemma ConversionExample(t: TomlPalette)
    requires t == TomlPalette("test", Some("Test palette"), Some("Test Author"),
      [TomlColor("red", "#FF0000", Some("Red color")), TomlColor("blue", "#0000FF", None)])
    ensures ToPalette(t) == Palette("test", "user://test", [Color("red", "#FF0000"), Color("blue", "#0000FF")])
  {
    var p := ToPalette(t);
    assert p.colors == [Color("red", "#FF0000"), Color("blue", "#0000FF")] by {
      assert |p.colors| == 2 && p.colors[0] == Color("red", "#FF0000") && p.colors[1] == Color("blue", "#0000FF");
    }
  }

  // ---------------------------------------------------------------- one file

  /** The error `load_toml_palette` reports for colour `c` of palette `paletteName` when
      `parse_hex_color` rejects it with `e`. */
  function InvalidColorError(c: TomlColor, paletteName: string, e: RustBucketError): RustBucketError
  {
    PaletteParseError("Invalid color '" + c.hex + "' in palette '" + paletteName + "': " + Display(e))
  }

  /** The check each colour of palette `paletteName` goes through: `parse_hex_color`, its error
      reworded. */
  function CheckColor(paletteName: string): TomlColor -> BucketResult<Color>
  {
    (c: TomlColor) => match ParseHexColor(c.hex, c.name)
         case Ok(parsed) => Ok(parsed)
         case Err(e) => Err(InvalidColorError(c, paletteName, e))
  }

  /** A colour passes the check exactly when `parse_hex_color` accepts its hex. */
  predicate ValidHex(c: TomlColor)
  {
    IsHexBody(HexBodyOf(c.hex))
  }

  /** `load_toml_palette`: the read error; the deserializer's error; the error of the first colour
      that does not parse; otherwise the converted document, whose hexes are those written in the
      file (the parsed colours are thrown away). */
  function TomlPaletteAt(fs: Fs, path: string, parse: string -> Result<TomlPalette, string>): BucketResult<Palette>
  {
    match ReadToString(fs, path)
    case Err(e) => Err(IoError(e))
    case Ok(content) =>
      match parse(content)
      case Err(e) => Err(PaletteParseError("Failed to parse TOML palette " + path + ": " + e))
      case Ok(t) =>
        match MapResult(t.colors, CheckColor(t.name))
        case Err(e) => Err(e)
        case Ok(_) => Ok(ToPalette(t))
  }

  /** What a file that is read and deserialized gives: it loads exactly when every colour's hex
      passes `parse_hex_color`, and then it is the document converted, raw hexes and all;
      otherwise it fails with the first rejected colour's error. */
  lemma TomlPaletteAtSpec(fs: Fs, path: string, parse: string -> Result<TomlPalette, string>, t: TomlPalette)
    requires ReadToString(fs, path).Ok? && parse(ReadToString(fs, path).value) == Ok(t)
    ensures TomlPaletteAt(fs, path, parse).Ok? <==> forall i | 0 <= i < |t.colors| :: ValidHex(t.colors[i])
    ensures TomlPaletteAt(fs, path, parse).Ok? ==> TomlPaletteAt(fs, path, parse).value == ToPalette(t)
    ensures TomlPaletteAt(fs, path, parse).Err? ==> exists i | 0 <= i < |t.colors| ::
      && ParseHexColor(t.colors[i].hex, t.colors[i].name).Err?
      && (forall j | 0 <= j < i :: ValidHex(t.colors[j]))
      && TomlPaletteAt(fs, path, parse).error ==
           InvalidColorError(t.colors[i], t.name, ParseHexColor(t.colors[i].hex, t.colors[i].name).error)
  {
    var check := CheckColor(t.name);
    forall i | 0 <= i < |t.colors| ensures check(t.colors[i]).Ok? <==> ValidHex(t.colors[i]) {
      ParseHexColorSpec(t.colors[i].hex, t.colors[i].name);
    }
    MapResultOk(t.colors, check);
    if MapResult(t.colors, check).Err? {
      var i := MapResultFirstError(t.colors, check);
      assert ParseHexColor(t.colors[i].hex, t.colors[i].name).Err?;
    }
  }

  /** A file that cannot be read, or does not deserialize, fails with that error. */
  lemma TomlPaletteAtFailures(fs: Fs, path: string, parse: string -> Result<TomlPalette, string>)
    ensures ReadToString(fs, path).Err? ==>
      TomlPaletteAt(fs, path, parse) == Err(IoError(ReadToString(fs, path).error))
    ensures ReadToString(fs, path).Ok? && parse(ReadToString(fs, path).value).Err? ==>
      TomlPaletteAt(fs, path, parse) == Err(PaletteParseError(
        "Failed to parse TOML palette " + path + ": " + parse(ReadToString(fs, path).value).error))
  {
  }

  /** What passes validation is stored as written: a hex with a blank in front of its '#' loads,
      keeping the blank, and `hex_to_rgb` then refuses it. */
  lemma PaddedHexPassesValidation(name: string, body: string)
    requires IsHexBody(body)
    ensures ValidHex(TomlColor(name, " #" + body, None))
    ensures HexToRgbDefined(" #" + body) && HexToRgb(" #" + body).Err?
  {
    var hex := " #" + body;
    var t := "#" + body;
    assert hex == [' '] + t && hex[1..] == t;
    assert TrimStart(hex) == TrimStart(t);
    HexDigitNotBlank(body[5]);
    assert t[|t| - 1] == body[5];
    TrimFixesUntrimmed(t);
    assert t[1..] == body;
    assert StripPrefixChar(hex, '#') == hex;
    assert Utf8Len(hex) >= |hex| == 8;
  }

  /** A hex kept as written after passing `parse_hex_color` never makes `hex_to_rgb` panic:
      what follows its optional leading '#' is six ASCII hex digits, or it is not six bytes long. */
  lemma ValidTomlHexDecodes(c: TomlColor)
    requires ValidHex(c)
    ensures HexToRgbDefined(c.hex)
  {
    var hex := c.hex;
    var clean := StripPrefixChar(hex, '#');
    var t := Trim(hex);
    TrimSlice(hex);
    assert |StripPrefixChar(t, '#')| == 6;
    if |hex| > 0 && hex[0] == '#' {
      assert TrimStart(hex) == hex;
      TrimEndSpec(hex);
      assert t == hex[..|t|] && t[0] == '#';
      assert |t| == 7;
    }
    assert |clean| >= 6;
    if Utf8Len(clean) == 6 {
      assert AllAscii(clean);
      AsciiRemainder(hex);
    }
  }

  /** Every palette a TOML file loads as can be handed to a converter: each of its hexes passed
      `parse_hex_color`. */
  lemma LoadedTomlDecodable(fs: Fs, path: string, parse: string -> Result<TomlPalette, string>)
    requires TomlPaletteAt(fs, path, parse).Ok?
    ensures Converter.Decodable(TomlPaletteAt(fs, path, parse).value.colors)
  {
    var t := parse(ReadToString(fs, path).value).value;
    TomlPaletteAtSpec(fs, path, parse, t);
    var p := TomlPaletteAt(fs, path, parse).value;
    forall i | 0 <= i < |p.colors| ensures HexToRgbDefined(p.colors[i].hex) {
      ValidTomlHexDecodes(t.colors[i]);
    }
  }

  /** Likewise a hex without its '#' loads as it is, unlike the colours of every other loader. */
  lemma BareHexPassesValidation(name: string, body: string)
    requires IsHexBody(body)
    ensures ValidHex(TomlColor(name, body, None))
    ensures !IsCanonicalHex(ToPalette(TomlPalette(name, None, None, [TomlColor(name, body, None)])).colors[0].hex)
  {
    HexDigitNotBlank(body[0]);
    HexDigitNotBlank(body[5]);
    TrimFixesUntrimmed(body);
    assert HexBodyOf(body) == body;
  }

  /** An entry of a search directory that is a `.toml` file contributes its palette when it loads
      and nothing when it does not (the failure is only logged); any other entry contributes
      nothing. */
  function TomlEntry(fs: Fs, dir: string, name: string, parse: string -> Result<TomlPalette, string>): seq<Palette>
  {
    var path := JoinPath(dir, name);
    if IsFile(fs, path) && Extension(name) == Some("toml") then
      match TomlPaletteAt(fs, path, parse)
      case Ok(p) => [p]
      case Err(_) => []
    else []
  }

  /** `TomlEntry` of a directory, as the step of the walk over its listing. */
  function TomlFrom(fs: Fs, dir: string, parse: string -> Result<TomlPalette, string>): string -> seq<Palette>
  {
    name => TomlEntry(fs, dir, name, parse)
  }

  lemma TomlFileEntry(fs: Fs, dir: string, name: string, parse: string -> Result<TomlPalette, string>, loaded: BucketResult<Palette>)
    requires IsFile(fs, JoinPath(dir, name)) && Extension(name) == Some("toml")
    requires loaded == TomlPaletteAt(fs, JoinPath(dir, name), parse)
    ensures TomlFrom(fs, dir, parse)(name) == if loaded.Ok? then [loaded.value] else []
  {
  }

  lemma OtherTomlEntry(fs: Fs, dir: string, name: string, parse: string -> Result<TomlPalette, string>)
    requires !(IsFile(fs, JoinPath(dir, name)) && Extension(name) == Some("toml"))
    ensures TomlFrom(fs, dir, parse)(name) == []
  {
  }

  // ---------------------------------------------------------------- the search directories

  /** The palettes search directory `dir` yields, in listing order and before duplicates are
      dropped: none when it does not exist; otherwise the error reading it, or its first
      unreadable entry's. */
  function DirPalettes(fs: Fs, dir: string, parse: string -> Result<TomlPalette, string>): BucketResult<seq<Palette>>
  {
    if !Exists(fs, dir) then Ok([])
    else
      match ReadDir(fs, dir)
      case Err(e) => Err(IoError("Failed to read palette directory " + dir + ": " + e))
      case Ok(entries) =>
        match Gather(entries, TomlFrom(fs, dir, parse))
        case Err(e) => Err(IoError(e))
        case Ok(found) => Ok(found)
  }

  /** The palettes of all search directories in order, before duplicates are dropped; the first
      directory that fails ends the search with its error. */
  function Candidates(fs: Fs, paths: seq<string>, parse: string -> Result<TomlPalette, string>): BucketResult<seq<Palette>>
    decreases |paths|
  {
    if paths == [] then Ok([])
    else
      var before :- Candidates(fs, paths[..|paths| - 1], parse);
      var found :- DirPalettes(fs, paths[|paths| - 1], parse);
      Ok(before + found)
  }

  /** Some palette of `ps` is named `name` (exactly: the comparison is case-sensitive). */
  predicate HasName(ps: seq<Palette>, name: string)
  {
    exists i | 0 <= i < |ps| :: ps[i].name == name
  }

  /** Keeping `p` unless a kept palette already has its name. */
  function AddNew(kept: seq<Palette>, p: Palette): seq<Palette>
  {
    if HasName(kept, p.name) then kept else kept + [p]
  }

  /** Offering each palette of `ps` in order. */
  function AddAll(kept: seq<Palette>, ps: seq<Palette>): seq<Palette>
    decreases |ps|
  {
    if ps == [] then kept else AddNew(AddAll(kept, ps[..|ps| - 1]), ps[|ps| - 1])
  }

  /** `load_palettes`: every palette found, the first of each name only. */
  function TomlPalettesIn(fs: Fs, paths: seq<string>, parse: string -> Result<TomlPalette, string>): BucketResult<seq<Palette>>
  {
    var found :- Candidates(fs, paths, parse);
    Ok(AddAll([], found))
  }

  /** Offering two runs of palettes in turn is offering them together. */
  lemma {:induction false} AddAllAppend(kept: seq<Palette>, a: seq<Palette>, b: seq<Palette>)
    ensures AddAll(kept, a + b) == AddAll(AddAll(kept, a), b)
    decreases |b|
  {
    if b == [] {
      assert a + b == a;
    } else {
      var n := |b| - 1;
      assert (a + b)[..|a + b| - 1] == a + b[..n];
      assert (a + b)[|a + b| - 1] == b[n];
      AddAllAppend(kept, a, b[..n]);
    }
  }

  /** What is kept grows: every kept palette stays, at its place. */
  lemma {:induction false} AddAllExtends(kept: seq<Palette>, ps: seq<Palette>)
    ensures |kept| <= |AddAll(kept, ps)| && AddAll(kept, ps)[..|kept|] == kept
    decreases |ps|
  {
    if ps != [] {
      AddAllExtends(kept, ps[..|ps| - 1]);
    }
  }

  /** Names are never repeated in what is kept. */
  predicate DistinctNames(ps: seq<Palette>)
  {
    forall i, j | 0 <= i < j < |ps| :: ps[i].name != ps[j].name
  }

  /** Offering palettes never repeats a name among those kept. */
  lemma {:induction false} AddAllDistinct(kept: seq<Palette>, ps: seq<Palette>)
    requires DistinctNames(kept)
    ensures DistinctNames(AddAll(kept, ps))
    decreases |ps|
  {
    if ps != [] {
      var n := |ps| - 1;
      var before := AddAll(kept, ps[..n]);
      AddAllDistinct(kept, ps[..n]);
      if !HasName(before, ps[n].name) {
        var after := before + [ps[n]];
        forall i, j | 0 <= i < j < |after| ensures after[i].name != after[j].name {
          if j == |before| {
            assert before[i].name != ps[n].name;
          }
        }
      }
    }
  }

  /** Every name offered is among those kept afterwards. */
  lemma {:induction false} AddAllKeepsNames(kept: seq<Palette>, ps: seq<Palette>)
    ensures forall k | 0 <= k < |ps| :: HasName(AddAll(kept, ps), ps[k].name)
    decreases |ps|
  {
    if ps != [] {
      var n := |ps| - 1;
      var before := AddAll(kept, ps[..n]);
      var after := AddAll(kept, ps);
      AddAllKeepsNames(kept, ps[..n]);
      assert after == AddNew(before, ps[n]);
      assert |before| <= |after| && after[..|before|] == before;
      forall k | 0 <= k < |ps| ensures HasName(after, ps[k].name) {
        if k < n {
          assert ps[..n][k] == ps[k];
          var j :| 0 <= j < |before| && before[j].name == ps[k].name;
          assert after[j] == before[j];
        } else if HasName(before, ps[n].name) {
          var j :| 0 <= j < |before| && before[j].name == ps[n].name;
          assert after[j] == before[j];
        } else {
          assert after[|before|] == ps[n];
        }
      }
    }
  }

  /** `p` is the first palette of `ps` with its name. */
  predicate FirstOfName(ps: seq<Palette>, p: Palette)
  {
    exists k | 0 <= k < |ps| :: ps[k] == p && !HasName(ps[..k], p.name)
  }

  /** Each palette kept from `ps` is the first palette of `ps` with its name. */
  lemma {:induction false} KeptAreFirsts(ps: seq<Palette>)
    ensures forall i | 0 <= i < |AddAll([], ps)| :: FirstOfName(ps, AddAll([], ps)[i])
    decreases |ps|
  {
    if ps != [] {
      var n := |ps| - 1;
      var init := ps[..n];
      var before := AddAll([], init);
      var after := AddAll([], ps);
      KeptAreFirsts(init);
      assert after == AddNew(before, ps[n]);
      forall i | 0 <= i < |after| ensures FirstOfName(ps, after[i]) {
        if i < |before| {
          assert FirstOfName(init, before[i]);
          var k :| 0 <= k < |init| && init[k] == before[i] && !HasName(init[..k], before[i].name);
          assert init[..k] == ps[..k];
          assert ps[k] == after[i];
        } else {
          assert !HasName(before, ps[n].name) && after[i] == ps[n];
          AddAllKeepsNames([], init);
          assert !HasName(init, ps[n].name);
          assert ps[..n] == init;
        }
      }
    } else {
      assert AddAll([], ps) == [];
    }
  }

  /** The de-duplication of `load_palettes`: the palettes kept have distinct names; each is the
      first palette found under its name; and every name found is kept. */
  lemma FirstOfEachName(ps: seq<Palette>)
    ensures DistinctNames(AddAll([], ps))
    ensures forall i | 0 <= i < |AddAll([], ps)| :: FirstOfName(ps, AddAll([], ps)[i])
    ensures forall k | 0 <= k < |ps| :: HasName(AddAll([], ps), ps[k].name)
  {
    AddAllDistinct([], ps);
    KeptAreFirsts(ps);
    AddAllKeepsNames([], ps);
  }

  /** A search path that does not exist is passed over. */
  lemma MissingDirectorySkipped(fs: Fs, dir: string, parse: string -> Result<TomlPalette, string>)
    requires !Exists(fs, dir)
    ensures DirPalettes(fs, dir, parse) == Ok([])
  {
  }

  /** A search directory that can be listed but holds no palette file, the empty directory
      included, yields an empty list. */
  lemma EmptyDirectoryGivesNothing(fs: Fs, dir: string, entries: seq<Result<string, string>>,
                                   parse: string -> Result<TomlPalette, string>)
    requires dir in fs && fs[dir] == Dir(Ok(entries))
    requires forall i | 0 <= i < |entries| :: entries[i].Ok? && TomlFrom(fs, dir, parse)(entries[i].value) == []
    ensures TomlPalettesIn(fs, [dir], parse) == Ok([])
  {
    GatherOk(entries, TomlFrom(fs, dir, parse));
    GatherEmpty(entries, TomlFrom(fs, dir, parse));
    assert DirPalettes(fs, dir, parse) == Ok([]);
    var paths := [dir];
    assert paths[..0] == [] && paths[0] == dir;
    assert Candidates(fs, paths[..0], parse) == Ok([]);
  }

  /** Loading fails only for a directory that exists but cannot be listed, or an entry that cannot
      be read; files that fail to load never make it fail. */
  lemma {:induction false} TomlPalettesErrors(fs: Fs, paths: seq<string>, parse: string -> Result<TomlPalette, string>)
    ensures TomlPalettesIn(fs, paths, parse).Err? ==> TomlPalettesIn(fs, paths, parse).error.IoError?
    ensures TomlPalettesIn(fs, paths, parse).Err? ==> exists k | 0 <= k < |paths| ::
      Exists(fs, paths[k]) && DirPalettes(fs, paths[k], parse).Err?
    decreases |paths|
  {
    if paths != [] {
      var n := |paths| - 1;
      TomlPalettesErrors(fs, paths[..n], parse);
      if Candidates(fs, paths[..n], parse).Err? {
        var k :| 0 <= k < n && Exists(fs, paths[..n][k]) && DirPalettes(fs, paths[..n][k], parse).Err?;
        assert paths[..n][k] == paths[k];
      } else if DirPalettes(fs, paths[n], parse).Err? {
        assert Exists(fs, paths[n]);
      }
    }
  }

  /** Every palette a search directory entry contributes can be handed to a converter. */
  lemma EntryDecodable(fs: Fs, dir: string, name: string, parse: string -> Result<TomlPalette, string>)
    ensures forall p | p in TomlEntry(fs, dir, name, parse) :: Converter.Decodable(p.colors)
  {
    var path := JoinPath(dir, name);
    if IsFile(fs, path) && Extension(name) == Some("toml") && TomlPaletteAt(fs, path, parse).Ok? {
      LoadedTomlDecodable(fs, path, parse);
    }
  }

  /** Every palette the search directories yield can be handed to a converter. */
  lemma {:induction false} CandidatesDecodable(fs: Fs, paths: seq<string>, parse: string -> Result<TomlPalette, string>)
    requires Candidates(fs, paths, parse).Ok?
    ensures forall p | p in Candidates(fs, paths, parse).value :: Converter.Decodable(p.colors)
    decreases |paths|
  {
    if paths != [] {
      var n := |paths| - 1;
      CandidatesDecodable(fs, paths[..n], parse);
      var dir := paths[n];
      if Exists(fs, dir) {
        var entries := ReadDir(fs, dir).value;
        var P := (p: Palette) => Converter.Decodable(p.colors);
        forall i | 0 <= i < |entries| && entries[i].Ok?
          ensures forall u | u in TomlFrom(fs, dir, parse)(entries[i].value) :: P(u)
        {
          EntryDecodable(fs, dir, entries[i].value, parse);
        }
        GatherAll(entries, TomlFrom(fs, dir, parse), P);
      }
    }
  }

  /** `load_palettes` followed by a converter never fails on a colour the decoder cannot take:
      every palette it returns can be handed to `NearestColorConverter::new`. */
  lemma TomlPalettesDecodable(fs: Fs, paths: seq<string>, parse: string -> Result<TomlPalette, string>)
    requires TomlPalettesIn(fs, paths, parse).Ok?
    ensures forall p | p in TomlPalettesIn(fs, paths, parse).value :: Converter.Decodable(p.colors)
  {
    var found := Candidates(fs, paths, parse).value;
    CandidatesDecodable(fs, paths, parse);
    KeptAreFirsts(found);
    var kept := AddAll([], found);
    forall p | p in kept ensures Converter.Decodable(p.colors) {
      var i :| 0 <= i < |kept| && kept[i] == p;
      assert FirstOfName(found, kept[i]);
    }
  }

  /** Once the search fails at a prefix of the paths, it fails the same way on all of them. */
  lemma {:induction false} CandidatesStops(fs: Fs, paths: seq<string>, parse: string -> Result<TomlPalette, string>, i: nat)
    requires i <= |paths| && Candidates(fs, paths[..i], parse).Err?
    ensures Candidates(fs, paths, parse) == Candidates(fs, paths[..i], parse)
    decreases |paths| - i
  {
    if i < |paths| {
      assert paths[..i + 1][..i] == paths[..i];
      CandidatesStops(fs, paths, parse, i + 1);
    } else {
      assert paths[..i] == paths;
    }
  }

  // ---------------------------------------------------------------- default search paths

  /** The process environment: the value of each variable that is set. */
  type Env = map<string, string>

  /** `get_user_config_dir`: `XDG_CONFIG_HOME` as it is (even empty), else `HOME` joined with
      ".config", else none. */
  function UserConfigDir(env: Env): Option<string>
  {
    if "XDG_CONFIG_HOME" in env then Some(env["XDG_CONFIG_HOME"])
    else if "HOME" in env then Some(JoinPath(env["HOME"], ".config"))
    else None
  }

  /** `get_default_search_paths`: `RTBT_PALETTE_DIR` when set, then the user configuration
      directory joined with "rtbt" and "palettes" when there is one. */
  function DefaultSearchPaths(env: Env): seq<string>
  {
    (if "RTBT_PALETTE_DIR" in env then [env["RTBT_PALETTE_DIR"]] else [])
    + (match UserConfigDir(env)
       case Some(dir) => [JoinPath(JoinPath(dir, "rtbt"), "palettes")]
       case None => [])
  }

  /** The override directory comes first; the configuration directory, under `XDG_CONFIG_HOME` in
      preference to `HOME/.config`, comes last; nothing else is searched. */
  lemma DefaultSearchPathsSpec(env: Env)
    ensures |DefaultSearchPaths(env)| ==
      (if "RTBT_PALETTE_DIR" in env then 1 else 0) + (if "XDG_CONFIG_HOME" in env || "HOME" in env then 1 else 0)
    ensures "RTBT_PALETTE_DIR" in env ==> DefaultSearchPaths(env)[0] == env["RTBT_PALETTE_DIR"]
    ensures "XDG_CONFIG_HOME" in env ==>
      DefaultSearchPaths(env)[|DefaultSearchPaths(env)| - 1] == JoinPath(JoinPath(env["XDG_CONFIG_HOME"], "rtbt"), "palettes")
    ensures "XDG_CONFIG_HOME" !in env && "HOME" in env ==>
      DefaultSearchPaths(env)[|DefaultSearchPaths(env)| - 1] ==
        JoinPath(JoinPath(JoinPath(env["HOME"], ".config"), "rtbt"), "palettes")
  {
  }

  /** With only `HOME=/home/user` set, the one directory searched is
      "/home/user/.config/rtbt/palettes"; an empty `XDG_CONFIG_HOME` is not ignored and gives the
      relative "rtbt/palettes". */
  lemma DefaultSearchPathsExamples(home: Env, emptyXdg: Env)
    requires home == map["HOME" := "/home/user"]
    requires emptyXdg == map["XDG_CONFIG_HOME" := "", "HOME" := "/home/user"]
    ensures DefaultSearchPaths(home) == ["/home/user/.config/rtbt/palettes"]
    ensures DefaultSearchPaths(emptyXdg) == ["rtbt/palettes"]
  {
    assert ".config"[..1] == "." && "rtbt"[..1] == "r" && "palettes"[..1] == "p";
    assert "/home/user" + "/" + ".config" == "/home/user/.config";
    assert "/home/user/.config" + "/" + "rtbt" == "/home/user/.config/rtbt";
    assert "/home/user/.config/rtbt" + "/" + "palettes" == "/home/user/.config/rtbt/palettes";
    assert "" + "rtbt" == "rtbt";
    assert "rtbt" + "/" + "palettes" == "rtbt/palettes";
  }

  // ---------------------------------------------------------------- the loader

  /** `TomlPaletteLoader`: its search paths, in order. */
  datatype TomlPaletteLoader = TomlPaletteLoader(searchPaths: seq<string>)
  {
    /** `TomlPaletteLoader::new`. */
    static function New(env: Env): (loader: TomlPaletteLoader)
      ensures loader.searchPaths == DefaultSearchPaths(env)
    {
      TomlPaletteLoader(DefaultSearchPaths(env))
    }

    /** `load_toml_palette`, with its validation loop. */
    method LoadTomlPalette(fs: Fs, path: string, parse: string -> Result<TomlPalette, string>) returns (r: BucketResult<Palette>)
      ensures r == TomlPaletteAt(fs, path, parse)
    {
      var content := ReadToString(fs, path);
      if content.Err? {
        return Err(IoError(content.error));
      }
      var parsed := parse(content.value);
      if parsed.Err? {
        return Err(PaletteParseError("Failed to parse TOML palette " + path + ": " + parsed.error));
      }
      var toml := parsed.value;
      ghost var check := CheckColor(toml.name);
      for i := 0 to |toml.colors|
        invariant MapResult(toml.colors[..i], check).Ok?
      {
        var color := toml.colors[i];
        var checked := ParseHexColor(color.hex, color.name);
        assert toml.colors[..i + 1][..i] == toml.colors[..i];
        if checked.Err? {
          assert MapResult(toml.colors[..i + 1], check) == Err(InvalidColorError(color, toml.name, checked.error));
          MapResultErrorSticks(toml.colors, check, i + 1);
          return Err(InvalidColorError(color, toml.name, checked.error));
        }
      }
      assert toml.colors[..|toml.colors|] == toml.colors;
      return Ok(ToPalette(toml));
    }

    /** `palettes.iter().any(|p| p.name == name)`. */
    static method AnyNamed(palettes: seq<Palette>, name: string) returns (found: bool)
      ensures found == HasName(palettes, name)
    {
      found := false;
      var i := 0;
      while i < |palettes| && !found
        invariant 0 <= i <= |palettes|
        invariant found == HasName(palettes[..i], name)
      {
        found := palettes[i].name == name;
        assert palettes[..i + 1] == palettes[..i] + [palettes[i]];
        i := i + 1;
      }
      if !found {
        assert palettes[..i] == palettes;
      }
    }

    /** The inner loop of `load_palettes` over one existing search directory: each palette it
        yields is kept unless one of that name is already kept. */
    method LoadFromDirectory(fs: Fs, dir: string, parse: string -> Result<TomlPalette, string>, kept: seq<Palette>)
      returns (r: BucketResult<seq<Palette>>)
      requires Exists(fs, dir)
      ensures DirPalettes(fs, dir, parse).Err? ==> r == Err(DirPalettes(fs, dir, parse).error)
      ensures DirPalettes(fs, dir, parse).Ok? ==> r == Ok(AddAll(kept, DirPalettes(fs, dir, parse).value))
    {
      var listing := ReadDir(fs, dir);
      if listing.Err? {
        return Err(IoError("Failed to read palette directory " + dir + ": " + listing.error));
      }
      var entries := listing.value;
      ghost var f := TomlFrom(fs, dir, parse);
      ghost var found: seq<Palette> := [];
      var palettes := kept;
      for i := 0 to |entries|
        invariant Gather(entries[..i], f) == Ok(found)
        invariant palettes == AddAll(kept, found)
      {
        var entry := entries[i];
        if entry.Err? {
          GatherStopsAt(entries, f, i);
          return Err(IoError(entry.error));
        }
        var path := JoinPath(dir, entry.value);
        var more: seq<Palette> := [];
        if IsFile(fs, path) && Extension(entry.value) == Some("toml") {
          var loaded := LoadTomlPalette(fs, path, parse);
          TomlFileEntry(fs, dir, entry.value, parse, loaded);
          if loaded.Ok? {
            more := [loaded.value];
            var duplicate := AnyNamed(palettes, loaded.value.name);
            if !duplicate {
              palettes := palettes + [loaded.value];
            }
          }
        } else {
          OtherTomlEntry(fs, dir, entry.value, parse);
        }
        GatherStep(entries, f, i);
        AddAllAppend(kept, found, more);
        if more != [] {
          assert [more[0]][..0] == [];
        }
        found := found + more;
      }
      assert entries[..|entries|] == entries;
      return Ok(palettes);
    }

    /** `load_palettes`: the search directories in order, the first palette of each name only. */
    method LoadPalettes(fs: Fs, parse: string -> Result<TomlPalette, string>) returns (r: BucketResult<seq<Palette>>)
      ensures r == TomlPalettesIn(fs, searchPaths, parse)
    {
      var palettes: seq<Palette> := [];
      ghost var found: seq<Palette> := [];
      for k := 0 to |searchPaths|
        invariant Candidates(fs, searchPaths[..k], parse) == Ok(found)
        invariant palettes == AddAll([], found)
      {
        var dir := searchPaths[k];
        assert searchPaths[..k + 1][..k] == searchPaths[..k];
        if !Exists(fs, dir) {
          assert found + [] == found;
          continue;
        }
        var loaded := LoadFromDirectory(fs, dir, parse, palettes);
        if loaded.Err? {
          CandidatesStops(fs, searchPaths, parse, k + 1);
          return Err(loaded.error);
        }
        AddAllAppend([], found, DirPalettes(fs, dir, parse).value);
        found := found + DirPalettes(fs, dir, parse).value;
        palettes := loaded.value;
      }
      assert searchPaths[..|searchPaths|] == searchPaths;
      return Ok(palettes);
    }
  }
}
