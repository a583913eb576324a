# rustbucket in Dafny

This project models the core of rustbucket, a command-line tool that remaps every pixel of an image onto the nearest colour of a palette. It covers:

- the nearest-colour converters, both per-pixel and with block averaging (`src/image/converter.rs`);
- the RGB distance and hex wrappers (`src/image/mod.rs`);
- the hex colour validator, decoder and encoder (`src/palette/parser.rs`);
- the pipeline decisions of `ImageProcessor` (`src/image/processor.rs`);
- the `--pixels-area` value parser (`src/cli.rs`);
- the palette registries and loaders: the built-in table, `PaletteManager`, the TOML loader and the directory loader (`src/palette/`).

Code that changes state in place keeps that form:

- the converters' loops over `array2` pixel grids;
- the loaders' push, append and insert loops;
- `PaletteManager`, a class whose `palettes` map field is updated by its methods.

Each such method is proved against a specification function. The properties the source promises are proved about those functions as lemmas.

The file system, the environment, the TOML deserializer and the blur are inputs of the model:

- the file system is a map from path to file text or directory listing;
- the environment is a map of variables;
- `parse` is a function from text to a `TomlPalette` or an error message;
- `blur` is a function from an image and a preset to an image.

The modules follow the source files:

- `Converter` (`converter.dfy`): `NearestColorConverter`.
- `Averaging` (`averaging.dfy`): `OptimizedConverter`.
- `ColorSpace` (`colorspace.dfy`): `src/image/mod.rs`.
- `HexParser` (`parser.dfy`), `Processor` (`processor.dfy`) and `Cli` (`cli.dfy`).
- `Builtin` (`builtin.dfy`), `Manager` (`manager.dfy`), `TomlLoader` (`toml_loader.dfy`) and `Loader` (`loader.dfy`).

Supporting modules:

- `Types` and `Errors`: the data of `src/lib.rs` and `src/error.rs`.
- `Image`: the slice of `DynamicImage` the converters use.
- `Text`: the Rust string and number-parsing behaviour the code relies on.
- `FileSystem`: paths, files and directories.
- `Listing`: the two walks over a directory listing.
- `Wrappers`: `Option`, `Result` and the `?` loop over a sequence.

Where the code behaves in ways a reader may not expect, the model follows the code:

- The decoder `hex_to_rgb` reads each pair with `u8::from_str_radix`, which accepts a leading '+'. The model decodes "+F+F+F" exactly as the code does (`HexParser.DecoderAcceptsSignedPairs`).
- The validator `parse_hex_color` rejects that text (`HexParser.ValidatorRejectsSignedPairs`).
- `parse_hex_color` checks the length of the text in bytes, not characters.
- The TOML loader stores each colour's hex as written, not as the validator normalises it. So a hex without '#', or with a blank before the '#', loads as it is (`TomlLoader.BareHexPassesValidation`, `TomlLoader.PaddedHexPassesValidation`).

## Model

| member | source | states |
|---|---|---|
| `Converter.DecodeColor` | src/image/converter.rs:23 | decoding one colour fails only with `InvalidColor` |
| `Converter.DecodeColorsOk` | src/image/converter.rs:22-25 | decoding a palette's colours succeeds exactly when every hex decodes, and then gives one RGB colour per palette colour, in declaration order |
| `Converter.DecodeColorsFirstError` | src/image/converter.rs:22-25 | a failed decoding is the `InvalidColor` error of the first hex that does not decode; every earlier hex decodes |
| `Converter.FindByName` | src/image/converter.rs:56 | the search finds nothing exactly when no colour has the name; otherwise it finds a palette colour with that name |
| `Converter.FindByNameFirst` | src/image/converter.rs:56 | the colour found is the first with that name |
| `Converter.Resolved` | src/image/converter.rs:55-66 | a selection yields at most one colour per selected name, each a colour of the palette |
| `Converter.ResolvedAllFound` | src/image/converter.rs:55-66 | when every name is in the palette, the selection is the first colour of each name, in selection order, repeated names repeated |
| `Converter.ResolvedNoneFound` | src/image/converter.rs:55-66 | when no name is in the palette, nothing is selected |
| `Converter.NearestColorConverter.FromPalette` | src/image/converter.rs:19-43 | `new` succeeds exactly when the palette is non-empty and every hex decodes, with the decoded colours in declaration order; a bad hex gives `InvalidColor`, an empty palette `PaletteNotFound` with the source's message |
| `Converter.NearestColorConverter.FromSelection` | src/image/converter.rs:45-84 | an empty selection is `new`; otherwise it succeeds exactly when some name resolves and every resolved colour decodes, and holds the decoded resolved colours |
| `Converter.NearestColorConverter.New` | src/image/converter.rs:19-43 | the push loop gives exactly the result `FromPalette` specifies |
| `Converter.NearestColorConverter.NewWithSelectedColors` | src/image/converter.rs:45-84 | the lookup-and-push loop gives exactly the result `FromSelection` specifies |
| `Converter.NearestColorConverter.Nearest` | src/image/converter.rs:86-99 | the match is one of the converter's colours |
| `Converter.NearestColorConverter.FindNearestColor` | src/image/converter.rs:86-99 | the scan with a strict `<` returns the colour at `NearestIndex`, the earliest of the closest colours |
| `Converter.NearestColorConverter.ConvertPixel` | src/image/converter.rs:111-115 | a pixel converts to its nearest palette colour |
| `Converter.NearestColorConverter.RemapOpaque` | src/image/converter.rs:131-134 | on the RGB path a pixel's colour is its match and it is opaque |
| `Converter.NearestColorConverter.RemapKeepAlpha` | src/image/converter.rs:149-153 | on the alpha path a pixel's colour is its match and its alpha is unchanged |
| `Converter.NearestColorConverter.ConvertImage` | src/image/converter.rs:117-139 | a new image of the input's size: the RGBA variants take the alpha path, every other variant gives an `ImageRgb8` whose every pixel is its input pixel's match |
| `Converter.NearestColorConverter.ConvertImageWithAlpha` | src/image/converter.rs:141-157 | a new `ImageRgba8` of the input's size, each pixel's RGB remapped and its alpha copied |
| `Converter.NearestColorConverter.RemapRow` | src/image/converter.rs:149-154 | one row of the `enumerate_pixels` walk remaps that row into the output and leaves every other pixel alone |
| `Converter.NewKeepsDeclarationOrder` | src/image/converter.rs:22-25 | `new` keeps one decoded colour per palette colour, in declaration order |
| `Converter.NoSelectedColorFound` | src/image/converter.rs:68-73 | a non-empty selection with no name in the palette fails with `ColorNotFound` naming the palette |
| `Converter.SelectionKeepsOrder` | src/image/converter.rs:55-66 | with every name present and every colour decodable, the converter holds one colour per selected name in selection order, the first palette colour of that name |
| `Converter.NearestIndex` | src/image/converter.rs:90-96 | the chosen index has minimal distance, and every earlier colour is strictly farther |
| `Converter.NearestIndexUnique` | src/image/converter.rs:92 | that characterisation picks exactly one index, so the strict `<` fully decides the result |
| `Converter.PaletteColorMapsToItself` | src/image/converter.rs:379-386 | a palette colour maps to itself |
| `Converter.LaterDuplicateNeverChosen` | src/image/converter.rs:92 | a colour repeated later in the list is never the one chosen; exact ties go to the earlier |
| `Converter.ConvertPixelExamples` | src/image/converter.rs:379-392 | with Red, Green and Blue, red maps to red and (255, 100, 100) maps to red |
| `Averaging.RowBounded` | src/image/converter.rs:198-204 | a row's sums count its pixels and are at most 255 per pixel |
| `Averaging.BlockBounded` | src/image/converter.rs:197-205 | a block's sums are at most 255 per pixel |
| `Averaging.BlockCount` | src/image/converter.rs:197-205 | a clipped block's pixel count is its width times its height |
| `Averaging.AsU8` | src/image/converter.rs:209-211 | the `as u8` cast keeps every value from 0 to 255 |
| `Averaging.AverageOf` | src/image/converter.rs:213-215 | an empty block averages to all zeros |
| `Averaging.AverageExact` | src/image/converter.rs:305-311 | the casts never truncate: each channel is exactly the rounded-down quotient of its sum by the pixel count |
| `Averaging.BlockStart` | src/image/converter.rs:233-234 | the block of size w holding a coordinate starts at most w - 1 before it |
| `Averaging.BlockStartInside` | src/image/converter.rs:233-234 | the `step_by` start of a block is the block start of every coordinate inside it |
| `Averaging.SumRow` | src/image/converter.rs:295-302 | the inner summing loop adds the row's sums, alpha only on the RGBA path |
| `Averaging.SumBlock` | src/image/converter.rs:294-303 | the summing loops give the sums over the clipped block |
| `Averaging.OptimizedConverter.Build` | src/image/converter.rs:167-186 | `new` succeeds and fails exactly as the plain converter from the palette or the selection; the area defaults to (1, 1); `use_averaging` is kept |
| `Averaging.OptimizedConverter.New` | src/image/converter.rs:167-186 | the method gives exactly the result `Build` specifies |
| `Averaging.OptimizedConverter.BlockAt` | src/image/converter.rs:197-205 | the sums of the block at a start position are bounded |
| `Averaging.OptimizedConverter.AveragePixels` | src/image/converter.rs:188-216 | `average_pixels` is the colour part of the block's rounded-down average |
| `Averaging.OptimizedConverter.AverageRgbaPixels` | src/image/converter.rs:284-315 | `average_rgba_pixels` is the block's rounded-down average, alpha included |
| `Averaging.OptimizedConverter.ConvertBlock` | src/image/converter.rs:234-243 | one block is averaged, matched once and filled with the match; nothing outside it changes |
| `Averaging.OptimizedConverter.ConvertBlockRow` | src/image/converter.rs:233-245 | one row of blocks is filled with each block's colour; rows outside the band are unchanged |
| `Averaging.OptimizedConverter.ConvertWithAveraging` | src/image/converter.rs:231-245 | every pixel of the new image holds its block's colour |
| `Averaging.OptimizedConverter.ConvertRgbWithAveraging` | src/image/converter.rs:218-248 | an `ImageRgb8` of the input's size, each pixel the opaque match of its block's average |
| `Averaging.OptimizedConverter.ConvertRgbaWithAveraging` | src/image/converter.rs:250-282 | an `ImageRgba8` of the input's size, each pixel the match of its block's average with the block's average alpha |
| `Averaging.OptimizedConverter.ConvertImage` | src/image/converter.rs:323-337 | per-pixel conversion unless averaging is on with an area other than (1, 1); then block averaging |
| `Averaging.OptimizedConverter.ConvertImageWithAlpha` | src/image/converter.rs:339-341 | always the plain converter's alpha path |
| `Averaging.OptimizedConverter.ConvertPixel` | src/image/converter.rs:319-321 | the plain converter's match |
| `Averaging.FillBlock` | src/image/converter.rs:239-243 | the fill loops give every pixel of the clipped block the colour and change nothing else |
| `Averaging.AverageOfScaled` | src/image/converter.rs:207-212 | copies of one pixel average back to that pixel |
| `Averaging.BlockNonEmpty` | src/image/converter.rs:207-215 | every block the loops visit holds a pixel, so the all-zero fallback never reaches the output |
| `Averaging.UnitBlockIsPixel` | src/image/converter.rs:324 | with a 1 x 1 area a pixel's block colour is its own match |
| `Averaging.UnitBlocksConvertPerPixel` | src/image/converter.rs:323-326 | averaging over 1 x 1 blocks and per-pixel conversion describe the same output, which is why `convert_image` may skip averaging for that area |
| `Averaging.SolidImageStaysSolid` | src/image/converter.rs:233-243 | a single-colour image becomes the single colour of its match |
| `ColorSpace.RgbDistance` | src/image/mod.rs:30-41 | the squared distance is zero exactly for equal colours and at most 3 x 255 squared |
| `ColorSpace.DistanceSymmetric` | src/image/mod.rs:30-41 | the distance is symmetric |
| `ColorSpace.SquaredComparisonAgrees` | src/image/mod.rs:40 | non-negative numbers compare as their squares do, so dropping the square root changes no comparison |
| `ColorSpace.BlackWhiteFartherThanRed` | src/image/mod.rs:63 | white is farther from black than red is |
| `ColorSpace.HexToRgb` | src/image/mod.rs:43-46 | the wrapper succeeds exactly when the palette decoder does, with its triple or its error |
| `ColorSpace.RgbToHex` | src/image/mod.rs:48-50 | the wrapper's output is '#' and six hex digits |
| `ColorSpace.RgbHexRoundTrip` | src/image/mod.rs:43-50 | every colour survives encoding and decoding |
| `ColorSpace.HexToRgbExamples` | src/image/mod.rs:67-69 | "#BF616A" decodes to (191, 97, 106) |
| `ColorSpace.HexToRgbWithoutHash` | src/image/mod.rs:71-72 | "FFFFFF" decodes to white |
| `ColorSpace.RgbToHexExamples` | src/image/mod.rs:76-82 | (191, 97, 106) encodes as "#BF616A" and black as "#000000" |
| `HexParser.BodyChecks` | src/palette/parser.rs:14-26 | the byte-length check and the digit check together accept exactly six hex digits |
| `HexParser.ParseHexColorSpec` | src/palette/parser.rs:3-38 | a colour is accepted exactly when its trimmed text, less one '#', is six hex digits; it keeps the name and the trimmed text, with '#' in front when missing; every failure is `InvalidColor` |
| `HexParser.ParseHexColor` | src/palette/parser.rs:3-38 | the validator itself: trim, empty check, byte length, hex digits, '#' added when missing; what it accepts and returns is stated by `HexParser.ParseHexColorSpec` and `HexParser.ParsedHexIsCanonical` |
| `HexParser.ParseHexColorRejectsBlank` | src/palette/parser.rs:4-10 | blank text is rejected with "Empty color string" |
| `HexParser.ParsedHexIsCanonical` | src/palette/parser.rs:28-37 | every accepted colour is stored as '#' and six hex digits |
| `HexParser.ParseCanonicalHex` | src/palette/parser.rs:28-29 | a colour already in that form is accepted unchanged |
| `HexParser.HexToRgb` | src/palette/parser.rs:41-62 | every decoding failure is `InvalidColor` |
| `HexParser.AsciiRemainder` | src/palette/parser.rs:51-59 | an ASCII remainder never makes the byte slices panic, and each slice is the two characters at its offsets |
| `HexParser.WideCharactersRejected` | src/palette/parser.rs:51-53 | "ééé" is six bytes whose slice `[0..2]` is "é", so decoding gives `InvalidColor("Invalid red component: é")` |
| `HexParser.SplitCharacterPanics` | src/palette/parser.rs:51-56 | for "aébcd" byte offset 2 falls inside "é", so the decoder's requirement excludes it, as the source panics there |
| `HexParser.HexToRgbOfBody` | src/palette/parser.rs:42-61 | on six hex digits, with or without '#', the decoder reads the three pairs |
| `HexParser.RgbToHexShape` | src/palette/parser.rs:65-67 | the encoder writes '#' and six upper-case hex digits |
| `HexParser.RgbToHex` | src/palette/parser.rs:65-67 | the encoder itself; its shape is stated by `HexParser.RgbToHexShape` and its inverse by `HexParser.RgbHexRoundTrip` |
| `HexParser.RgbHexRoundTrip` | src/palette/parser.rs:41-67 | decoding an encoded triple gives it back |
| `HexParser.HexRgbRoundTrip` | src/palette/parser.rs:41-67 | six hex digits decode, and encoding the result gives the digits back in upper case behind one '#' |
| `HexParser.ParsedHexDecodes` | src/palette/parser.rs:28-32 | every colour the validator accepts, the decoder accepts |
| `HexParser.DecoderAcceptsSignedPairs` | src/palette/parser.rs:51-59 | the decoder takes "+F+F+F" as (15, 15, 15) |
| `HexParser.ValidatorRejectsSignedPairs` | src/palette/parser.rs:21-26 | the validator rejects "+F+F+F" |
| `HexParser.RejectsNonDigit` | src/palette/parser.rs:21-26 | text holding a character that is not a hex digit is rejected |
| `HexParser.ParseBareHexBody` | src/palette/parser.rs:28-32 | six bare hex digits are stored with '#' in front, in their own letter case |
| `HexParser.ParseHexColorExample` | src/palette/parser.rs:80-85 | "BF616A" is stored as "#BF616A" under its name |
| `HexParser.ParseHexColorHashExample` | src/palette/parser.rs:73-78 | "#BF616A" is stored as it is |
| `HexParser.ParseHexColorRejectsShort` | src/palette/parser.rs:94-98 | "BF61" and "BF616A1" are rejected |
| `HexParser.ParseHexColorRejectsNonHex` | src/palette/parser.rs:100-104 | "GGGGGG" and "BF616Z" are rejected |
| `HexParser.HashIsOptional` | src/palette/parser.rs:42 | text without '#' decodes as it does behind a '#' |
| `HexParser.HexToRgbExample` | src/palette/parser.rs:112-118 | "#BF616A" decodes to (191, 97, 106) |
| `Processor.NewBlur` | src/image/effects.rs:9-13 | the radius is three sigmas rounded up |
| `Processor.PresetRadii` | src/image/effects.rs:15-25 | the light, moderate and heavy presets have sigmas 0.8, 1.2 and 2.0 and radii 3, 4 and 6 |
| `Processor.Light` | src/image/effects.rs:15-17 | the light preset, sigma 0.8; its radius 3 is stated by `Processor.PresetRadii` |
| `Processor.Moderate` | src/image/effects.rs:19-21 | the moderate preset, sigma 1.2; its radius 4 is stated by `Processor.PresetRadii` |
| `Processor.Heavy` | src/image/effects.rs:23-25 | the heavy preset, sigma 2.0; its radius 6 is stated by `Processor.PresetRadii` |
| `Processor.ChooseBlur` | src/image/processor.rs:64-75 | the light preset exactly when an area wider or taller than 2 is given, the moderate one otherwise |
| `Processor.ConverterFor` | src/image/processor.rs:43-62 | the optimized converter exactly when an area is given or averaging is not disabled, with averaging on exactly when not disabled; the converter succeeds or fails as the plain one from the palette or the selection; block averaging runs exactly when an area other than (1, 1) is given and averaging is not disabled |
| `Processor.CreateConverter` | src/image/processor.rs:43-62 | the method gives exactly the result `ConverterFor` specifies |
| `Processor.DefaultIsPerPixel` | src/image/processor.rs:44-51 | with no area given, conversion is per pixel whichever converter is built |
| `Processor.ImageConverter.ConvertImage` | src/image/processor.rs:27 | whichever converter was built, the result has the input's size and is that converter's conversion |
| `Processor.ApplyBlur` | src/image/processor.rs:64-79 | blurring never fails and uses the chosen preset |
| `Processor.PreserveFormat` | src/image/processor.rs:81-89 | the processed image is returned unchanged |
| `Processor.ProcessImage` | src/image/processor.rs:16-41 | the converter's error is returned; otherwise conversion, then the blur when enabled, then `preserve_format`; the result keeps the input's size when the blur keeps sizes |
| `Processor.EstimateProcessingTime` | src/image/processor.rs:145-165 | the estimate is never negative, and positive exactly for a non-empty image |
| `Processor.BlurCostsMore` | src/image/processor.rs:160-162 | blur multiplies the estimate by 1.5, so it is strictly larger for a non-empty image |
| `Processor.AveragingFactorOnlyWhenEnabled` | src/image/processor.rs:151-157 | the factor 1 + 0.1 w h applies exactly when averaging is not disabled and an area is given |
| `Cli.ParsePixelsArea` | src/cli.rs:109-136 | the empty string and three or more parts are rejected with the source's messages; otherwise it succeeds exactly when every part reads as a `u32`, giving the width and the height, or the width twice |
| `Cli.SquareRoundTrip` | src/cli.rs:127-133 | a written-out number reads back as a square area |
| `Cli.PairRoundTrip` | src/cli.rs:123-135 | "WIDTH,HEIGHT" reads back as that area |
| `Cli.ParsePixelsAreaAccepts` | src/cli.rs:143-150 | "5" gives (5, 5) and "3,7" gives (3, 7) |
| `Cli.ParsePixelsAreaRejectsShape` | src/cli.rs:152-160 | "" and "1,2,3" are rejected |
| `Cli.ParsePixelsAreaRejectsWidth` | src/cli.rs:123-125 | "abc" fails on the width |
| `Cli.ParsePixelsAreaRejectsHeight` | src/cli.rs:127-130 | "1,abc" fails on the height |
| `Cli.ZeroAreaAccepted` | src/cli.rs:123-135 | as written, "0" gives (0, 0), which breaks the averaging converter's need for a positive area |
| `Cli.ParsePixelsAreaChecked` | src/error.rs:18-19 | with the zero check, an area is accepted exactly when it parses with both sides positive |
| `Cli.CheckedAreaIsUsable` | src/cli.rs:109-136 | any area the checked parser accepts meets the pipeline's requirement |
| `Cli.CheckedRejectsZero` | src/cli.rs:109-136 | the checked parser rejects "0" and still reads every positive square |
| `Builtin.GetNames` | src/palette/builtin.rs:56-75 | there are seventeen names |
| `Builtin.GetAll` | src/palette/builtin.rs:9-29 | there are seventeen palettes |
| `Builtin.Arm` | src/palette/builtin.rs:32-53 | a key selects one of seventeen arms, or none |
| `Builtin.GetPalette` | src/palette/builtin.rs:32-53 | the `match` on the lower-cased name; its answers are stated by `Builtin.GetPaletteSpec` and the `Lookup*` lemmas |
| `Builtin.GetAllMatchesNames` | src/palette/builtin.rs:9-29 | the palettes of `get_all` carry the names of `get_names`, position by position |
| `Builtin.NamesDistinct` | src/palette/builtin.rs:56-75 | the seventeen names are distinct |
| `Builtin.NamesAreLower` | src/palette/builtin.rs:56-75 | every name is its own lower case |
| `Builtin.LookupOnlyNames` | src/palette/builtin.rs:34-51 | the `match` answers only for a listed name |
| `Builtin.LookupKnowsNames` | src/palette/builtin.rs:34-50 | the `match` answers for every listed name |
| `Builtin.LookupFindsNamed` | src/palette/builtin.rs:34-50 | what the `match` answers is a palette of `get_all` with the key as its name |
| `Builtin.GetPaletteSpec` | src/palette/builtin.rs:32-53 | `get_palette` answers exactly for the listed names in any ASCII case, with the palette of that name whose path is "builtin://" and the name |
| `Builtin.GetPaletteIgnoresCase` | src/palette/builtin.rs:33 | a name and its lower case find the same palette |
| `Builtin.EveryNameFound` | src/palette/builtin.rs:32-75 | every listed name finds the palette at its position |
| `Builtin.GetPaletteExamples` | src/palette/builtin.rs:1170-1199 | "NORD", "Nord" and "nord" find nord, "unknown" finds nothing; nord has 16 colours, the first "#2E3440" |
| `Builtin.BuiltinPaths` | src/palette/builtin.rs:78-1154 | every built-in palette's path is "builtin://" and its name |
| `Builtin.AllBuiltinsShaped` | src/palette/builtin.rs:78-1154 | every built-in hex is '#' and six hex digits |
| `Builtin.ShapedPaletteBuilds` | src/image/converter.rs:19-43 | a palette written as '#' and six hex digits per colour decodes, and a converter built from it succeeds when it has a colour |
| `Builtin.BuiltinPalettesBuild` | src/palette/builtin.rs:9-29 | a converter built from any built-in palette succeeds |
| `Builtin.RepeatedHexNeverMatched` | src/image/converter.rs:92 | a hex listed twice in a well-formed palette is held twice, and the later copy is never the match |
| `Builtin.VaporwaveRepeats` | src/palette/builtin.rs:1107-1154 | vaporwave repeats #F92672 and #66D9EF; the later copies are never matched |
| `Builtin.ChallengerRepeat` | src/palette/builtin.rs:911-958 | challenger repeats #CBE3E7; the later copy is never matched |
| `Builtin.SerenadeRepeat` | src/palette/builtin.rs:1058-1105 | serenade repeats #D4D4D6; the later copy is never matched |
| `Manager.OverrideKeys` | src/palette/mod.rs:36-39 | after the inserts, a key is present exactly when it was before or some palette's lower-cased name is the key |
| `Manager.OverrideLastWins` | src/palette/mod.rs:36-39 | the value under a key is the last palette inserted under it |
| `Manager.OverrideKeepsOthers` | src/palette/mod.rs:36-39 | a key nothing is inserted under keeps its value |
| `Manager.OverrideKeyedByName` | src/palette/mod.rs:29-31 | inserting keeps every palette under the lower case of its own name |
| `Manager.InsertSorted` | src/palette/mod.rs:51 | one step of the sort keeps the names strictly ascending and adds exactly the new name |
| `Manager.PaletteManager.constructor` | src/palette/mod.rs:19-23 | a new manager holds no palettes |
| `Manager.PaletteManager.InsertAll` | src/palette/mod.rs:29-31 | the insert loop puts each palette under its lower-cased name, in order |
| `Manager.PaletteManager.LoadAllPalettes` | src/palette/mod.rs:26-43 | the built-ins go in first, then the TOML palettes, each under its lower-cased name; a TOML failure is returned with the built-ins already in |
| `Manager.OverrideDecodable` | src/palette/mod.rs:29-39 | inserting palettes whose hexes all decode keeps every palette of the map decodable |
| `Manager.LoadedDecodable` | src/palette/mod.rs:26-43 | after `load_all_palettes` succeeds on an empty manager, every palette it holds, built-in or TOML, meets the converter's requirement on its colours |
| `Manager.PaletteManager.QueriesAgree` | src/palette/mod.rs:45-57 | `get_palette` and `palette_exists` agree, ignore ASCII case, and find only a palette whose name is the query up to case |
| `Manager.PaletteManager.GetPalette` | src/palette/mod.rs:45-47 | the map lookup under the lower-cased name; stated by `Manager.PaletteManager.QueriesAgree` |
| `Manager.PaletteManager.PaletteExists` | src/palette/mod.rs:55-57 | the key test under the lower-cased name; stated by `Manager.PaletteManager.QueriesAgree` |
| `Manager.PaletteManager.GetPaletteNames` | src/palette/mod.rs:49-53 | the names are exactly the keys, strictly ascending |
| `Manager.PaletteManager.GetBuiltinPaletteNames` | src/palette/mod.rs:59-62 | seventeen names, each a built-in one |
| `Manager.PaletteManager.IsBuiltinPalette` | src/palette/mod.rs:64-67 | true exactly for a built-in name up to case, whatever has been loaded |
| `Manager.LoadedLookup` | src/palette/mod.rs:26-47 | after loading, a name is known exactly when it is built in or some TOML palette has it up to case; without such a TOML palette it finds the built-in |
| `Manager.BuiltinKeys` | src/palette/mod.rs:28-31 | the built-ins alone sit under exactly the keys the built-in `match` answers, each with its palette |
| `Manager.TomlOverridesBuiltin` | src/palette/mod.rs:36-39 | a TOML palette named "NORD" replaces the built-in nord, which `is_builtin_palette` still reports |
| `TomlLoader.PaletteRoundTrip` | src/palette/toml_loader.rs:23-57 | a palette converted to TOML and back is the same palette under its "user://" path |
| `TomlLoader.ToPalette` | src/palette/toml_loader.rs:23-38 | `From<TomlPalette> for Palette`; stated by `TomlLoader.PaletteRoundTrip` and `TomlLoader.TomlRoundTrip` |
| `TomlLoader.FromPalette` | src/palette/toml_loader.rs:40-57 | `From<&Palette> for TomlPalette`; stated by the same two round trips |
| `TomlLoader.TomlRoundTrip` | src/palette/toml_loader.rs:23-57 | a document converted and back keeps its name and its colours' names and hexes in order, and loses exactly the descriptions and the author |
| `TomlLoader.ConversionExample` | src/palette/toml_loader.rs:283-307 | the test document "test" converts to red #FF0000 and blue #0000FF under "user://test" |
| `TomlLoader.TomlPaletteAtSpec` | src/palette/toml_loader.rs:187-197 | a deserialized document loads exactly when every colour passes `parse_hex_color`, and then as the converted document with its raw hexes; otherwise it fails with the first rejected colour's error |
| `TomlLoader.TomlPaletteAtFailures` | src/palette/toml_loader.rs:177-185 | a read failure and a deserializer failure are returned with their messages |
| `TomlLoader.TomlPaletteAt` | src/palette/toml_loader.rs:176-198 | `load_toml_palette` as a function of the file system; stated by `TomlLoader.TomlPaletteAtSpec` and `TomlLoader.TomlPaletteAtFailures` |
| `TomlLoader.ValidTomlHexDecodes` | src/palette/toml_loader.rs:187-197 | a hex that passed `parse_hex_color`, kept as written, never makes `hex_to_rgb` slice inside a character |
| `TomlLoader.LoadedTomlDecodable` | src/palette/toml_loader.rs:176-198 | every palette a TOML file loads as meets the converter's requirement on its colours |
| `TomlLoader.PaddedHexPassesValidation` | src/palette/toml_loader.rs:188-197 | a hex with a blank before its '#' loads as written, and `hex_to_rgb` then rejects it |
| `TomlLoader.BareHexPassesValidation` | src/palette/toml_loader.rs:31-34 | a hex without '#' loads as written |
| `TomlLoader.AddAllDistinct` | src/palette/toml_loader.rs:141-154 | the kept palettes never repeat a name |
| `TomlLoader.AddAllKeepsNames` | src/palette/toml_loader.rs:141-154 | every name offered is among those kept |
| `TomlLoader.AddAllExtends` | src/palette/toml_loader.rs:141-154 | kept palettes stay, in place |
| `TomlLoader.KeptAreFirsts` | src/palette/toml_loader.rs:141-154 | each kept palette is the first palette found with its name |
| `TomlLoader.FirstOfEachName` | src/palette/toml_loader.rs:141-154 | the de-duplication keeps distinct names, the first palette of each, and every name found |
| `TomlLoader.MissingDirectorySkipped` | src/palette/toml_loader.rs:114-117 | a search path that does not exist adds nothing |
| `TomlLoader.EmptyDirectoryGivesNothing` | src/palette/toml_loader.rs:333-339 | an empty search directory gives an empty list |
| `TomlLoader.TomlPalettesErrors` | src/palette/toml_loader.rs:122-134 | loading fails only with an IO error of an existing directory; files that fail to load never make it fail |
| `TomlLoader.TomlPalettesIn` | src/palette/toml_loader.rs:108-173 | `load_palettes` as a function of the file system; stated by `TomlLoader.FirstOfEachName`, `TomlLoader.MissingDirectorySkipped`, `TomlLoader.EmptyDirectoryGivesNothing` and `TomlLoader.TomlPalettesErrors` |
| `TomlLoader.TomlPalettesDecodable` | src/palette/toml_loader.rs:108-173 | every palette `load_palettes` returns meets the converter's requirement on its colours |
| `TomlLoader.DefaultSearchPathsSpec` | src/palette/toml_loader.rs:83-105 | `RTBT_PALETTE_DIR` comes first when set; the configuration directory comes last, from `XDG_CONFIG_HOME` in preference to `HOME/.config` |
| `TomlLoader.DefaultSearchPathsExamples` | src/palette/toml_loader.rs:100-105 | with only `HOME` the path is "/home/user/.config/rtbt/palettes"; an empty `XDG_CONFIG_HOME` gives "rtbt/palettes" |
| `TomlLoader.DefaultSearchPaths` | src/palette/toml_loader.rs:83-97 | `get_default_search_paths`; stated by `TomlLoader.DefaultSearchPathsSpec` |
| `TomlLoader.UserConfigDir` | src/palette/toml_loader.rs:100-105 | `get_user_config_dir`; stated by `TomlLoader.DefaultSearchPathsSpec` and `TomlLoader.DefaultSearchPathsExamples` |
| `TomlLoader.TomlPaletteLoader.New` | src/palette/toml_loader.rs:64-68 | the loader searches the default paths |
| `TomlLoader.TomlPaletteLoader.LoadTomlPalette` | src/palette/toml_loader.rs:176-198 | the read, deserialize and validation loop gives exactly what `TomlPaletteAt` specifies |
| `TomlLoader.TomlPaletteLoader.AnyNamed` | src/palette/toml_loader.rs:141 | true exactly when some palette has the name, compared case-sensitively |
| `TomlLoader.TomlPaletteLoader.LoadFromDirectory` | src/palette/toml_loader.rs:122-159 | one directory's entries are offered in listing order; a palette is kept unless its name is already kept |
| `TomlLoader.TomlPaletteLoader.LoadPalettes` | src/palette/toml_loader.rs:108-173 | the search paths in order, missing ones skipped, the first palette of each name kept |
| `Loader.SkippedLinesNeverParse` | src/palette/loader.rs:121-124 | every line the skip rule passes over would have been rejected anyway |
| `Loader.LineContribution` | src/palette/loader.rs:119-135 | a line adds a colour exactly when it holds a hex, and the colour carries that hex |
| `Loader.ColorsOfSpec` | src/palette/loader.rs:118-146 | a file's colours are its accepted hexes in file order, the k-th named after the stem and k; a rejected line uses up no index |
| `Loader.ColorsOf` | src/palette/loader.rs:118-146 | the colours of a file's lines; stated by `Loader.ColorsOfSpec` and `Loader.LineContribution` |
| `Loader.AcceptedHexesCanonical` | src/palette/loader.rs:132-135 | every hex a colour file contributes is '#' and six hex digits |
| `Loader.ColorFileSpec` | src/palette/loader.rs:112-156 | a file fails exactly when it cannot be read or holds no accepted line, with `InvalidColor` in the latter case; otherwise its accepted hexes, named after the stem |
| `Loader.ColorFile` | src/palette/loader.rs:112-156 | `load_color_file` as a function of the file system; stated by `Loader.ColorFileSpec` |
| `Loader.CanonicalLinesColors` | src/palette/loader.rs:118-146 | a file whose lines are all '#' and six hex digits yields those colours, named by position |
| `Loader.AuroraExample` | src/palette/loader.rs:178 | "Aurora.txt" yields Aurora, Aurora1 and Aurora2 in order |
| `Loader.CanonicalLineAccepted` | src/palette/loader.rs:132 | a line already '#' and six hex digits is accepted as it is |
| `Loader.EntryColorsCanonical` | src/palette/loader.rs:79-95 | every colour an entry adds is '#' and six hex digits |
| `Loader.CanonicalPaletteBuilds` | src/image/converter.rs:19-43 | a palette of such colours decodes, and a converter from it succeeds when it has a colour |
| `Loader.PaletteInSpec` | src/palette/loader.rs:70-110 | `load_palette` succeeds exactly when the directory and its entries can be read and some entry adds a colour; the palette keeps the name and the directory, and a converter from it succeeds |
| `Loader.PaletteIn` | src/palette/loader.rs:70-110 | `load_palette` as a function of the file system; stated by `Loader.PaletteInSpec` |
| `Loader.PalettesUnderSpec` | src/palette/loader.rs:37-58 | the keys are exactly the lower-cased names of directories that load; each palette keeps its name's case and is the last directory loaded with that key |
| `Loader.PalettesUnderErrors` | src/palette/loader.rs:28-64 | a missing root and a root where nothing loads are `PaletteNotFound`; success means a directory with a palette |
| `Loader.PalettesUnder` | src/palette/loader.rs:25-68 | `load_palettes` as a function of the file system; stated by `Loader.PalettesUnderSpec` and `Loader.PalettesUnderErrors` |
| `Loader.MissingOrEmptyRootFails` | src/palette/loader.rs:226-240 | a missing root and an empty root are errors |
| `Loader.PaletteLoader.LoadColorFile` | src/palette/loader.rs:112-156 | the method gives exactly what `ColorFile` specifies |
| `Loader.PaletteLoader.CollectColors` | src/palette/loader.rs:115-146 | the line loop gives exactly the colours `ColorsOf` specifies |
| `Loader.PaletteLoader.LoadPalette` | src/palette/loader.rs:70-110 | the method gives exactly what `PaletteIn` specifies |
| `Loader.PaletteLoader.LoadPalettes` | src/palette/loader.rs:25-68 | the method gives exactly what `PalettesUnder` specifies |
| `Listing.GatherOk` | src/palette/loader.rs:75-76 | the walk over a listing fails exactly when some entry cannot be read, with the first such entry's error |
| `Listing.CollectLastWins` | src/palette/loader.rs:51 | the value under a key is the one the last entry yielding that key gives |
| `Listing.CollectKeys` | src/palette/loader.rs:37-58 | every key yielded is in the map, and only those |
| `Wrappers.MapResultOk` | src/palette/toml_loader.rs:188-195 | the `?` loop succeeds exactly when every element converts, holding the converted elements in order |
| `Wrappers.MapResultFirstError` | src/palette/toml_loader.rs:188-195 | a failure is the failure of the first element that does not convert |
| `Text.TrimEmptyIffBlank` | src/palette/parser.rs:4-6 | `trim` gives the empty string exactly for blank text |
| `Text.TrimIdempotent` | src/palette/loader.rs:119 | trimming twice is trimming once |
| `Text.ByteSlice` | src/palette/parser.rs:51-59 | `&s[a..b]` on byte offsets: when it is defined, the slice is `b - a` bytes long |
| `Text.ByteSliceSpec` | src/palette/parser.rs:51-59 | the slice is defined exactly when both offsets are character boundaries |
| `FileSystem.ExtensionSplitsName` | src/palette/loader.rs:79-80 | a name with an extension is its stem, a '.' and the extension |
| `FileSystem.StemAndExtension` | src/palette/loader.rs:79-80 | a stem, a '.' and an extension without '.' give back that stem and extension |
| `Errors.Display` | src/error.rs:5-26 | the `#[error(...)]` text of each variant: its prefix and then its payload; stated by `Errors.DisplayDistinguishes` |
| `Errors.DisplayDistinguishes` | src/error.rs:5-26 | two errors display the same text only when they are the same error, so each message names its variant and keeps its payload |

## Left out

- Images are held as their 8-bit RGBA view. The `image` crate's `to_rgb8` and `to_rgba8` conversions from 16-bit, float and luma variants are not modelled. Neither are `load_image`, `save_image` and `ImagePipeline::process_file`, which are file I/O.
- `rgb_distance` is held as the integer squared distance. The `f64` square root is monotone and the squares are exact, so every comparison of distances comes out the same (`ColorSpace.SquaredComparisonAgrees`).
- The Gaussian blur is a call into the `image` crate, so it is the parameter `blur` of `Processor.ProcessImage`. `f32` sigmas are reals.
- The colour cache of `NearestColorConverter` is never filled and changes no result, so it is left out, with `clear_cache` and `cache_size`. Logging is left out.
- The `u32` channel sums and the `start + area` bounds of the averaging loops are unbounded integers. The source would overflow only past 16 million pixels in one block, or for coordinates near 2^32.
- `Processor.EstimateProcessingTime`: computes `width * height` and `w * h` without the `u32` wrap-around or debug-build panic of the source. `f64` arithmetic is held as exact reals.
- `HexParser.HexToRgb`: requires what keeps `&clean[0..2]` and `&clean[2..4]` from panicking on a six-byte remainder: byte offset 2 is a character boundary, and so is offset 4 once the red pair parses. A remainder such as "ééé" is within the requirement and gives `InvalidColor` as in the source (`HexParser.WideCharactersRejected`); one such as "aébcd", where the source panics, is outside it (`HexParser.SplitCharacterPanics`). The panic itself is not modelled.
- `ColorSpace.HexToRgb`: carries the same requirement as `HexParser.HexToRgb`, which it calls.
- `Converter.DecodeColor`: carries the same requirement as `HexParser.HexToRgb` for the colour's hex.
- `Converter.NearestColorConverter.FromPalette`: requires every palette colour to meet the decoder's requirement, including colours after the first one that fails to decode, which the source never decodes. Every colour the built-in table and the colour-file loader produce is '#' and six hex digits and meets it. A TOML colour's hex is kept as written, but it passed `parse_hex_color`, so what follows its optional leading '#' is either six ASCII hex digits or not six bytes long (`TomlLoader.ValidTomlHexDecodes`). So every palette `load_all_palettes` stores meets the requirement (`Manager.LoadedDecodable`).
- `Converter.NearestColorConverter.FromSelection`: requires the same of every palette colour, including colours not selected, which the source never decodes.
- `Converter.NearestColorConverter.New`, `Converter.NearestColorConverter.NewWithSelectedColors`, `Averaging.OptimizedConverter.Build`, `Averaging.OptimizedConverter.New`, `Processor.ConverterFor`, `Processor.CreateConverter`, `Processor.ProcessImage` and the lemmas about them carry the same palette-wide requirement.
- The averaging paths of `Averaging.OptimizedConverter` require both sides of the area to be at least 1, because `step_by(0)` panics. See the finding below.
- `Text.ToLower`: lower-cases ASCII letters only, where `str::to_lowercase` also lower-cases other scripts. Names are compared as the model lower-cases them.
- Directory entries whose names are not valid Unicode (the `to_str()` failures in `src/palette/loader.rs:42-47` and `src/palette/loader.rs:80-85`) cannot occur, since names are strings.
- The order of a directory listing is unspecified in the source, so it is part of the input (the listing sequence).
- Operating-system error messages are whatever the file-system input holds.
- Reading TOML text is serde's work, so it is the parameter `parse`. Environment variables are a map, and a variable that is not valid Unicode is not modelled.
- Not modelled because they only write files or are trivial constructors: `save_palette`, `create_example_palette` and `create_example_toml_palette`; `with_path`, `with_paths` and `PaletteLoader::new` (the datatypes are built directly with their fields); the `ImageProcessor` getters.
- `TomlLoader.FirstOfEachName`: states which palettes are kept but not their order. The order of first appearance follows from `TomlLoader.AddAllExtends`.
- `Builtin.Lookup`: carries no contract of its own. What it answers is stated through `Builtin.Arm` and the `Lookup*` lemmas.
- `Manager.PaletteManager.GetPaletteNames`: picks the keys in an arbitrary order before sorting. This changes nothing, since the result is sorted and the keys are distinct.

## Findings

| source | as written | input that shows it | evidently intended | confidence | as-written member | corrected member |
|---|---|---|---|---|---|---|
| src/cli.rs:123-135 | `parse_pixels_area` accepts a zero width or height, though the error variant `InvalidPixelArea` (src/error.rs:18-19) exists for it | `--pixels-area 0` gives (0, 0); with averaging left on, `step_by(0)` in `convert_rgb_with_averaging` (src/image/converter.rs:233-234) panics | reject an area with a zero side with `InvalidPixelArea` | not executed | `Cli.ZeroAreaAccepted` | `Cli.ParsePixelsAreaChecked` |
