/** The built-in palettes (src/palette/builtin.rs): seventeen constant palettes in a fixed order,
    looked up by name without regard to ASCII case. */
module Builtin {
  import opened Wrappers
  import opened Types
  import opened Text
  import HexParser
  import opened Converter

  /** `get_names`: the seventeen names, in the order of `get_all`. */
  function GetNames(): (names: seq<string>)
    ensures |names| == 17
  {
    ["nord", "dracula", "gruvbox", "monokai", "solarized", "catppuccin",
     "tokyo", "oceanic", "palenight", "onedark", "vim", "gotham",
     "challenger", "molokai", "sonokai", "serenade", "vaporwave"]
  }

  /** `get_all`: every built-in palette, in the order of `get_names`. */
  function GetAll(): (palettes: seq<Palette>)
    ensures |palettes| == 17
  {
    [Nord(), Dracula(), Gruvbox(), Monokai(), Solarized(), Catppuccin(),
     Tokyo(), Oceanic(), Palenight(), Onedark(), Vim(), Gotham(),
     Challenger(), Molokai(), Sonokai(), Serenade(), Vaporwave()]
  }

  /** `get_palette`: the `match` on the lower-cased name. */
  function GetPalette(name: string): (r: Option<Palette>)
  {
    Lookup(ToLower(name))
  }

  /** The `match` itself: the palette of the arm the key selects, if any. Each arm's palette is
      the one `get_all` lists at the arm's position (the arms and `get_all` list the seventeen
      palettes in the same order). */
  function Lookup(key: string): (r: Option<Palette>)
  {
    match Arm(key)
    case Some(i) => Some(GetAll()[i])
    case None => None
  }

  /** Which arm of the `match` a key selects, by position. */
  function Arm(key: string): (i: Option<nat>)
    ensures i.Some? ==> i.value < 17
  {
    if key == "nord" then Some(0)
    else if key == "dracula" then Some(1)
    else if key == "gruvbox" then Some(2)
    else if key == "monokai" then Some(3)
    else if key == "solarized" then Some(4)
    else if key == "catppuccin" then Some(5)
    else if key == "tokyo" then Some(6)
    else if key == "oceanic" then Some(7)
    else if key == "palenight" then Some(8)
    else if key == "onedark" then Some(9)
    else if key == "vim" then Some(10)
    else if key == "gotham" then Some(11)
    else if key == "challenger" then Some(12)
    else if key == "molokai" then Some(13)
    else if key == "sonokai" then Some(14)
    else if key == "serenade" then Some(15)
    else if key == "vaporwave" then Some(16)
    else None
  }

  // ---------------------------------------------------------------- the tables

  function Nord(): Palette
  {
    Palette("nord", "builtin://nord", [
      Color("nord0", "#2E3440"),
      Color("nord1", "#3B4252"),
      Color("nord2", "#434C5E"),
      Color("nord3", "#4C566A"),
      Color("nord4", "#D8DEE9"),
      Color("nord5", "#E5E9F0"),
      Color("nord6", "#ECEFF4"),
      Color("nord7", "#8FBCBB"),
      Color("nord8", "#88C0D0"),
      Color("nord9", "#81A1C1"),
      Color("nord10", "#5E81AC"),
      Color("nord11", "#BF616A"),
      Color("nord12", "#D08770"),
      Color("nord13", "#EBCB8B"),
      Color("nord14", "#A3BE8C"),
      Color("nord15", "#B48EAD")
    ])
  }

  function Dracula(): Palette
  {
    Palette("dracula", "builtin://dracula", [
      Color("background", "#282A36"),
      Color("current_line", "#44475A"),
      Color("foreground", "#F8F8F2"),
      Color("comment", "#6272A4"),
      Color("cyan", "#8BE9FD"),
      Color("green", "#50FA7B"),
      Color("orange", "#FFB86C"),
      Color("pink", "#FF79C6"),
      Color("purple", "#BD93F9"),
      Color("red", "#FF5555"),
      Color("yellow", "#F1FA8C")
    ])
  }

  function Gruvbox(): Palette
  {
    Palette("gruvbox", "builtin://gruvbox", [
      Color("dark0", "#282828"),
      Color("dark1", "#3C3836"),
      Color("dark2", "#504945"),
      Color("dark3", "#665C54"),
      Color("dark4", "#7C6F64"),
      Color("light0", "#FBF1C7"),
      Color("light1", "#EBDBB2"),
      Color("light2", "#D5C4A1"),
      Color("light3", "#BDAE93"),
      Color("light4", "#A89984"),
      Color("red", "#FB4934"),
      Color("green", "#B8BB26"),
      Color("yellow", "#FABD2F"),
      Color("blue", "#83A598"),
      Color("purple", "#D3869B"),
      Color("aqua", "#8EC07C"),
      Color("orange", "#FE8019")
    ])
  }

  function Monokai(): Palette
  {
    Palette("monokai", "builtin://monokai", [
      Color("background", "#272822"),
      Color("foreground", "#F8F8F2"),
      Color("comment", "#75715E"),
      Color("red", "#F92672"),
      Color("orange", "#FD971F"),
      Color("yellow", "#E6DB74"),
      Color("green", "#A6E22E"),
      Color("blue", "#66D9EF"),
      Color("purple", "#AE81FF")
    ])
  }

  function Solarized(): Palette
  {
    Palette("solarized", "builtin://solarized", [
      Color("base03", "#002B36"),
      Color("base02", "#073642"),
      Color("base01", "#586E75"),
      Color("base00", "#657B83"),
      Color("base0", "#839496"),
      Color("base1", "#93A1A1"),
      Color("base2", "#EEE8D5"),
      Color("base3", "#FDF6E3"),
      Color("yellow", "#B58900"),
      Color("orange", "#CB4B16"),
      Color("red", "#DC322F"),
      Color("magenta", "#D33682"),
      Color("violet", "#6C71C4"),
      Color("blue", "#268BD2"),
      Color("cyan", "#2AA198"),
      Color("green", "#859900")
    ])
  }

  function Catppuccin(): Palette
  {
    Palette("catppuccin", "builtin://catppuccin", [
      Color("rosewater", "#F5E0DC"),
      Color("flamingo", "#F2CDCD"),
      Color("pink", "#F5C2E7"),
      Color("mauve", "#CBA6F7"),
      Color("red", "#F38BA8"),
      Color("maroon", "#EBA0AC"),
      Color("peach", "#FAB387"),
      Color("yellow", "#F9E2AF"),
      Color("green", "#A6E3A1"),
      Color("teal", "#94E2D5"),
      Color("sky", "#89DCEB"),
      Color("sapphire", "#74C7EC"),
      Color("blue", "#89B4FA"),
      Color("lavender", "#B4BEFE"),
      Color("text", "#CDD6F4"),
      Color("base", "#1E1E2E")
    ])
  }

  function Tokyo(): Palette
  {
    Palette("tokyo", "builtin://tokyo", [
      Color("bg", "#1A1B26"),
      Color("bg_dark", "#16161E"),
      Color("bg_highlight", "#292E42"),
      Color("terminal_black", "#414868"),
      Color("fg", "#C0CAF5"),
      Color("fg_dark", "#A9B1D6"),
      Color("fg_gutter", "#3B4261"),
      Color("dark3", "#545C7E"),
      Color("comment", "#565F89"),
      Color("dark5", "#737AA2"),
      Color("blue0", "#3D59A1"),
      Color("blue", "#7AA2F7"),
      Color("cyan", "#7DCFFF"),
      Color("blue1", "#2AC3DE"),
      Color("blue2", "#0DB9D7"),
      Color("blue5", "#89DDFF"),
      Color("blue6", "#B4F9F8"),
      Color("blue7", "#394B70"),
      Color("magenta", "#BB9AF7"),
      Color("magenta2", "#FF007C"),
      Color("purple", "#9D7CD8"),
      Color("orange", "#FF9E64"),
      Color("yellow", "#E0AF68"),
      Color("green", "#9ECE6A"),
      Color("green1", "#73DACA"),
      Color("green2", "#41A6B5"),
      Color("teal", "#1ABC9C"),
      Color("red", "#F7768E"),
      Color("red1", "#DB4B4B")
    ])
  }

  function Oceanic(): Palette
  {
    Palette("oceanic", "builtin://oceanic", [
      Color("base00", "#2B303B"),
      Color("base01", "#343D46"),
      Color("base02", "#4F5B66"),
      Color("base03", "#65737E"),
      Color("base04", "#A7ADBA"),
      Color("base05", "#C0C5CE"),
      Color("base06", "#DFE1E8"),
      Color("base07", "#EFF1F5"),
      Color("base08", "#BF616A"),
      Color("base09", "#D08770"),
      Color("base0A", "#EBCB8B"),
      Color("base0B", "#A3BE8C"),
      Color("base0C", "#96B5B4"),
      Color("base0D", "#8FA1B3"),
      Color("base0E", "#B48EAD"),
      Color("base0F", "#AB7967")
    ])
  }

  function Palenight(): Palette
  {
    Palette("palenight", "builtin://palenight", [
      Color("background", "#292D3E"),
      Color("foreground", "#BFC7D5"),
      Color("cursor", "#FFCC00"),
      Color("red", "#F07178"),
      Color("green", "#C3E88D"),
      Color("yellow", "#FFCB6B"),
      Color("blue", "#82AAFF"),
      Color("magenta", "#C792EA"),
      Color("cyan", "#89DDFF"),
      Color("white", "#EEFFFF")
    ])
  }

  function Onedark(): Palette
  {
    Palette("onedark", "builtin://onedark", [
      Color("black", "#282C34"),
      Color("red", "#E06C75"),
      Color("green", "#98C379"),
      Color("yellow", "#E5C07B"),
      Color("blue", "#61AFEF"),
      Color("magenta", "#C678DD"),
      Color("cyan", "#56B6C2"),
      Color("white", "#ABB2BF")
    ])
  }

  function Vim(): Palette
  {
    Palette("vim", "builtin://vim", [
      Color("black", "#000000"),
      Color("dark_red", "#800000"),
      Color("dark_green", "#008000"),
      Color("dark_yellow", "#808000"),
      Color("dark_blue", "#000080"),
      Color("dark_magenta", "#800080"),
      Color("dark_cyan", "#008080"),
      Color("gray", "#C0C0C0"),
      Color("dark_gray", "#808080"),
      Color("red", "#FF0000"),
      Color("green", "#00FF00"),
      Color("yellow", "#FFFF00"),
      Color("blue", "#0000FF"),
      Color("magenta", "#FF00FF"),
      Color("cyan", "#00FFFF"),
      Color("white", "#FFFFFF")
    ])
  }

  function Gotham(): Palette
  {
    Palette("gotham", "builtin://gotham", [
      Color("base00", "#0C1014"),
      Color("base01", "#11151C"),
      Color("base02", "#091F2E"),
      Color("base03", "#0A3749"),
      Color("base04", "#245361"),
      Color("base05", "#599CAB"),
      Color("base06", "#99D1CE"),
      Color("base07", "#D3EBE9"),
      Color("base08", "#C33027"),
      Color("base09", "#D26939"),
      Color("base0A", "#EDB54B"),
      Color("base0B", "#2AA889"),
      Color("base0C", "#33859D"),
      Color("base0D", "#195465"),
      Color("base0E", "#888CA6"),
      Color("base0F", "#4E5166")
    ])
  }

  function Challenger(): Palette
  {
    Palette("challenger", "builtin://challenger", [
      Color("background", "#1B1D29"),
      Color("foreground", "#CBE3E7"),
      Color("black", "#100E23"),
      Color("red", "#FF8080"),
      Color("green", "#95FFA4"),
      Color("yellow", "#FFE9AA"),
      Color("blue", "#91DDFF"),
      Color("magenta", "#C991E1"),
      Color("cyan", "#AAFFE4"),
      Color("white", "#CBE3E7")
    ])
  }

  function Molokai(): Palette
  {
    Palette("molokai", "builtin://molokai", [
      Color("black", "#1B1D1E"),
      Color("red", "#F92672"),
      Color("green", "#A6E22E"),
      Color("yellow", "#E6DB74"),
      Color("blue", "#66D9EF"),
      Color("magenta", "#AE81FF"),
      Color("cyan", "#A1EFE4"),
      Color("white", "#F8F8F2")
    ])
  }

  function Sonokai(): Palette
  {
    Palette("sonokai", "builtin://sonokai", [
      Color("bg0", "#2C2E34"),
      Color("bg1", "#33353F"),
      Color("bg2", "#363944"),
      Color("bg3", "#3B3E48"),
      Color("bg4", "#414550"),
      Color("fg", "#E2E2E3"),
      Color("red", "#FC5D7C"),
      Color("orange", "#F39660"),
      Color("yellow", "#E7C664"),
      Color("green", "#9ED072"),
      Color("blue", "#76CCE0"),
      Color("purple", "#B39DF3")
    ])
  }

  function Serenade(): Palette
  {
    Palette("serenade", "builtin://serenade", [
      Color("background", "#303340"),
      Color("foreground", "#D4D4D6"),
      Color("black", "#3A3D4A"),
      Color("red", "#D76E6E"),
      Color("green", "#B1D196"),
      Color("yellow", "#F9E79F"),
      Color("blue", "#8BB8DF"),
      Color("magenta", "#BB97EE"),
      Color("cyan", "#9FE7DD"),
      Color("white", "#D4D4D6")
    ])
  }

  function Vaporwave(): Palette
  {
    Palette("vaporwave", "builtin://vaporwave", [
      Color("background", "#0F0F23"),
      Color("foreground", "#FAFAFA"),
      Color("pink", "#F92672"),
      Color("purple", "#AE81FF"),
      Color("cyan", "#66D9EF"),
      Color("green", "#A6E22E"),
      Color("yellow", "#E6DB74"),
      Color("orange", "#FD971F"),
      Color("red", "#F92672"),
      Color("blue", "#66D9EF")
    ])
  }

  // ---------------------------------------------------------------- the hex text of the tables

  /** '#' and six hex digits, written out character by character. */
  predicate HexShape(s: string)
  {
    |s| == 7 && s[0] == '#' && IsAsciiHexDigit(s[1]) && IsAsciiHexDigit(s[2]) && IsAsciiHexDigit(s[3]) &&
    IsAsciiHexDigit(s[4]) && IsAsciiHexDigit(s[5]) && IsAsciiHexDigit(s[6])
  }

  predicate AllShaped(colors: seq<Color>)
  {
    forall i | 0 <= i < |colors| :: HexShape(colors[i].hex)
  }

  lemma NordShaped()
    ensures AllShaped(Nord().colors)
  {
    var cs := Nord().colors;
    assert HexShape(cs[0].hex);
    assert HexShape(cs[1].hex);
    assert HexShape(cs[2].hex);
    assert HexShape(cs[3].hex);
    assert HexShape(cs[4].hex);
    assert HexShape(cs[5].hex);
    assert HexShape(cs[6].hex);
    assert HexShape(cs[7].hex);
    assert HexShape(cs[8].hex);
    assert HexShape(cs[9].hex);
    assert HexShape(cs[10].hex);
    assert HexShape(cs[11].hex);
    assert HexShape(cs[12].hex);
    assert HexShape(cs[13].hex);
    assert HexShape(cs[14].hex);
    assert HexShape(cs[15].hex);
  }

  lemma DraculaShaped()
    ensures AllShaped(Dracula().colors)
  {
    var cs := Dracula().colors;
    assert HexShape(cs[0].hex);
    assert HexShape(cs[1].hex);
    assert HexShape(cs[2].hex);
    assert HexShape(cs[3].hex);
    assert HexShape(cs[4].hex);
    assert HexShape(cs[5].hex);
    assert HexShape(cs[6].hex);
    assert HexShape(cs[7].hex);
    assert HexShape(cs[8].hex);
    assert HexShape(cs[9].hex);
    assert HexShape(cs[10].hex);
  }

  lemma GruvboxShaped0()
    ensures forall i | 0 <= i < 5 :: HexShape(Gruvbox().colors[i].hex)
  {
    var cs := Gruvbox().colors;
    assert HexShape(cs[0].hex);
    assert HexShape(cs[1].hex);
    assert HexShape(cs[2].hex);
    assert HexShape(cs[3].hex);
    assert HexShape(cs[4].hex);
  }

  lemma GruvboxShaped1()
    ensures forall i | 5 <= i < 10 :: HexShape(Gruvbox().colors[i].hex)
  {
    var cs := Gruvbox().colors;
    assert HexShape(cs[5].hex);
    assert HexShape(cs[6].hex);
    assert HexShape(cs[7].hex);
    assert HexShape(cs[8].hex);
    assert HexShape(cs[9].hex);
  }

  lemma GruvboxShaped2()
    ensures forall i | 10 <= i < 15 :: HexShape(Gruvbox().colors[i].hex)
  {
    var cs := Gruvbox().colors;
    assert HexShape(cs[10].hex);
    assert HexShape(cs[11].hex);
    assert HexShape(cs[12].hex);
    assert HexShape(cs[13].hex);
    assert HexShape(cs[14].hex);
  }

  lemma GruvboxShaped3()
    ensures forall i | 15 <= i < 17 :: HexShape(Gruvbox().colors[i].hex)
  {
    var cs := Gruvbox().colors;
    assert HexShape(cs[15].hex);
    assert HexShape(cs[16].hex);
  }

  lemma GruvboxShaped()
    ensures AllShaped(Gruvbox().colors)
  {
    GruvboxShaped0();
    GruvboxShaped1();
    GruvboxShaped2();
    GruvboxShaped3();
  }

  lemma MonokaiShaped()
    ensures AllShaped(Monokai().colors)
  {
    var cs := Monokai().colors;
    assert HexShape(cs[0].hex);
    assert HexShape(cs[1].hex);
    assert HexShape(cs[2].hex);
    assert HexShape(cs[3].hex);
    assert HexShape(cs[4].hex);
    assert HexShape(cs[5].hex);
    assert HexShape(cs[6].hex);
    assert HexShape(cs[7].hex);
    assert HexShape(cs[8].hex);
  }

  lemma SolarizedShaped()
    ensures AllShaped(Solarized().colors)
  {
    var cs := Solarized().colors;
    assert HexShape(cs[0].hex);
    assert HexShape(cs[1].hex);
    assert HexShape(cs[2].hex);
    assert HexShape(cs[3].hex);
    assert HexShape(cs[4].hex);
    assert HexShape(cs[5].hex);
    assert HexShape(cs[6].hex);
    assert HexShape(cs[7].hex);
    assert HexShape(cs[8].hex);
    assert HexShape(cs[9].hex);
    assert HexShape(cs[10].hex);
    assert HexShape(cs[11].hex);
    assert HexShape(cs[12].hex);
    assert HexShape(cs[13].hex);
    assert HexShape(cs[14].hex);
    assert HexShape(cs[15].hex);
  }

  lemma CatppuccinShaped()
    ensures AllShaped(Catppuccin().colors)
  {
    var cs := Catppuccin().colors;
    assert HexShape(cs[0].hex);
    assert HexShape(cs[1].hex);
    assert HexShape(cs[2].hex);
    assert HexShape(cs[3].hex);
    assert HexShape(cs[4].hex);
    assert HexShape(cs[5].hex);
    assert HexShape(cs[6].hex);
    assert HexShape(cs[7].hex);
    assert HexShape(cs[8].hex);
    assert HexShape(cs[9].hex);
    assert HexShape(cs[10].hex);
    assert HexShape(cs[11].hex);
    assert HexShape(cs[12].hex);
    assert HexShape(cs[13].hex);
    assert HexShape(cs[14].hex);
    assert HexShape(cs[15].hex);
  }

  lemma TokyoShaped0()
    ensures forall i | 0 <= i < 5 :: HexShape(Tokyo().colors[i].hex)
  {
    var cs := Tokyo().colors;
    assert HexShape(cs[0].hex);
    assert HexShape(cs[1].hex);
    assert HexShape(cs[2].hex);
    assert HexShape(cs[3].hex);
    assert HexShape(cs[4].hex);
  }

  lemma TokyoShaped1()
    ensures forall i | 5 <= i < 10 :: HexShape(Tokyo().colors[i].hex)
  {
    var cs := Tokyo().colors;
    assert HexShape(cs[5].hex);
    assert HexShape(cs[6].hex);
    assert HexShape(cs[7].hex);
    assert HexShape(cs[8].hex);
    assert HexShape(cs[9].hex);
  }

  lemma TokyoShaped2()
    ensures forall i | 10 <= i < 15 :: HexShape(Tokyo().colors[i].hex)
  {
    var cs := Tokyo().colors;
    assert HexShape(cs[10].hex);
    assert HexShape(cs[11].hex);
    assert HexShape(cs[12].hex);
    assert HexShape(cs[13].hex);
    assert HexShape(cs[14].hex);
  }

  lemma TokyoShaped3()
    ensures forall i | 15 <= i < 20 :: HexShape(Tokyo().colors[i].hex)
  {
    var cs := Tokyo().colors;
    assert HexShape(cs[15].hex);
    assert HexShape(cs[16].hex);
    assert HexShape(cs[17].hex);
    assert HexShape(cs[18].hex);
    assert HexShape(cs[19].hex);
  }

  lemma TokyoShaped4()
    ensures forall i | 20 <= i < 25 :: HexShape(Tokyo().colors[i].hex)
  {
    var cs := Tokyo().colors;
    assert HexShape(cs[20].hex);
    assert HexShape(cs[21].hex);
    assert HexShape(cs[22].hex);
    assert HexShape(cs[23].hex);
    assert HexShape(cs[24].hex);
  }

  lemma TokyoShaped5()
    ensures forall i | 25 <= i < 29 :: HexShape(Tokyo().colors[i].hex)
  {
    var cs := Tokyo().colors;
    assert HexShape(cs[25].hex);
    assert HexShape(cs[26].hex);
    assert HexShape(cs[27].hex);
    assert HexShape(cs[28].hex);
  }

  lemma TokyoShaped()
    ensures AllShaped(Tokyo().colors)
  {
    TokyoShaped0();
    TokyoShaped1();
    TokyoShaped2();
    TokyoShaped3();
    TokyoShaped4();
    TokyoShaped5();
  }

  lemma OceanicShaped()
    ensures AllShaped(Oceanic().colors)
  {
    var cs := Oceanic().colors;
    assert HexShape(cs[0].hex);
    assert HexShape(cs[1].hex);
    assert HexShape(cs[2].hex);
    assert HexShape(cs[3].hex);
    assert HexShape(cs[4].hex);
    assert HexShape(cs[5].hex);
    assert HexShape(cs[6].hex);
    assert HexShape(cs[7].hex);
    assert HexShape(cs[8].hex);
    assert HexShape(cs[9].hex);
    assert HexShape(cs[10].hex);
    assert HexShape(cs[11].hex);
    assert HexShape(cs[12].hex);
    assert HexShape(cs[13].hex);
    assert HexShape(cs[14].hex);
    assert HexShape(cs[15].hex);
  }

  lemma PalenightShaped()
    ensures AllShaped(Palenight().colors)
  {
    var cs := Palenight().colors;
    assert HexShape(cs[0].hex);
    assert HexShape(cs[1].hex);
    assert HexShape(cs[2].hex);
    assert HexShape(cs[3].hex);
    assert HexShape(cs[4].hex);
    assert HexShape(cs[5].hex);
    assert HexShape(cs[6].hex);
    assert HexShape(cs[7].hex);
    assert HexShape(cs[8].hex);
    assert HexShape(cs[9].hex);
  }

  lemma OnedarkShaped()
    ensures AllShaped(Onedark().colors)
  {
    var cs := Onedark().colors;
    assert HexShape(cs[0].hex);
    assert HexShape(cs[1].hex);
    assert HexShape(cs[2].hex);
    assert HexShape(cs[3].hex);
    assert HexShape(cs[4].hex);
    assert HexShape(cs[5].hex);
    assert HexShape(cs[6].hex);
    assert HexShape(cs[7].hex);
  }

  lemma VimShaped()
    ensures AllShaped(Vim().colors)
  {
    var cs := Vim().colors;
    assert HexShape(cs[0].hex);
    assert HexShape(cs[1].hex);
    assert HexShape(cs[2].hex);
    assert HexShape(cs[3].hex);
    assert HexShape(cs[4].hex);
    assert HexShape(cs[5].hex);
    assert HexShape(cs[6].hex);
    assert HexShape(cs[7].hex);
    assert HexShape(cs[8].hex);
    assert HexShape(cs[9].hex);
    assert HexShape(cs[10].hex);
    assert HexShape(cs[11].hex);
    assert HexShape(cs[12].hex);
    assert HexShape(cs[13].hex);
    assert HexShape(cs[14].hex);
    assert HexShape(cs[15].hex);
  }

  lemma GothamShaped()
    ensures AllShaped(Gotham().colors)
  {
    var cs := Gotham().colors;
    assert HexShape(cs[0].hex);
    assert HexShape(cs[1].hex);
    assert HexShape(cs[2].hex);
    assert HexShape(cs[3].hex);
    assert HexShape(cs[4].hex);
    assert HexShape(cs[5].hex);
    assert HexShape(cs[6].hex);
    assert HexShape(cs[7].hex);
    assert HexShape(cs[8].hex);
    assert HexShape(cs[9].hex);
    assert HexShape(cs[10].hex);
    assert HexShape(cs[11].hex);
    assert HexShape(cs[12].hex);
    assert HexShape(cs[13].hex);
    assert HexShape(cs[14].hex);
    assert HexShape(cs[15].hex);
  }

  lemma ChallengerShaped()
    ensures AllShaped(Challenger().colors)
  {
    var cs := Challenger().colors;
    assert HexShape(cs[0].hex);
    assert HexShape(cs[1].hex);
    assert HexShape(cs[2].hex);
    assert HexShape(cs[3].hex);
    assert HexShape(cs[4].hex);
    assert HexShape(cs[5].hex);
    assert HexShape(cs[6].hex);
    assert HexShape(cs[7].hex);
    assert HexShape(cs[8].hex);
    assert HexShape(cs[9].hex);
  }

  lemma MolokaiShaped()
    ensures AllShaped(Molokai().colors)
  {
    var cs := Molokai().colors;
    assert HexShape(cs[0].hex);
    assert HexShape(cs[1].hex);
    assert HexShape(cs[2].hex);
    assert HexShape(cs[3].hex);
    assert HexShape(cs[4].hex);
    assert HexShape(cs[5].hex);
    assert HexShape(cs[6].hex);
    assert HexShape(cs[7].hex);
  }

  lemma SonokaiShaped()
    ensures AllShaped(Sonokai().colors)
  {
    var cs := Sonokai().colors;
    assert HexShape(cs[0].hex);
    assert HexShape(cs[1].hex);
    assert HexShape(cs[2].hex);
    assert HexShape(cs[3].hex);
    assert HexShape(cs[4].hex);
    assert HexShape(cs[5].hex);
    assert HexShape(cs[6].hex);
    assert HexShape(cs[7].hex);
    assert HexShape(cs[8].hex);
    assert HexShape(cs[9].hex);
    assert HexShape(cs[10].hex);
    assert HexShape(cs[11].hex);
  }

  lemma SerenadeShaped()
    ensures AllShaped(Serenade().colors)
  {
    var cs := Serenade().colors;
    assert HexShape(cs[0].hex);
    assert HexShape(cs[1].hex);
    assert HexShape(cs[2].hex);
    assert HexShape(cs[3].hex);
    assert HexShape(cs[4].hex);
    assert HexShape(cs[5].hex);
    assert HexShape(cs[6].hex);
    assert HexShape(cs[7].hex);
    assert HexShape(cs[8].hex);
    assert HexShape(cs[9].hex);
  }

  lemma VaporwaveShaped()
    ensures AllShaped(Vaporwave().colors)
  {
    var cs := Vaporwave().colors;
    assert HexShape(cs[0].hex);
    assert HexShape(cs[1].hex);
    assert HexShape(cs[2].hex);
    assert HexShape(cs[3].hex);
    assert HexShape(cs[4].hex);
    assert HexShape(cs[5].hex);
    assert HexShape(cs[6].hex);
    assert HexShape(cs[7].hex);
    assert HexShape(cs[8].hex);
    assert HexShape(cs[9].hex);
  }

  // ---------------------------------------------------------------- names and paths

  /** The path every built-in palette carries: `builtin://` and its name. */
  predicate HasBuiltinPath(p: Palette)
  {
    p.path == "builtin://" + p.name
  }

  lemma NordPath()
    ensures HasBuiltinPath(Nord())
  {
    assert "builtin://" + "nord" == "builtin://nord";
  }

  lemma DraculaPath()
    ensures HasBuiltinPath(Dracula())
  {
    assert "builtin://" + "dracula" == "builtin://dracula";
  }

  lemma GruvboxPath()
    ensures HasBuiltinPath(Gruvbox())
  {
    assert "builtin://" + "gruvbox" == "builtin://gruvbox";
  }

  lemma MonokaiPath()
    ensures HasBuiltinPath(Monokai())
  {
    assert "builtin://" + "monokai" == "builtin://monokai";
  }

  lemma SolarizedPath()
    ensures HasBuiltinPath(Solarized())
  {
    assert "builtin://" + "solarized" == "builtin://solarized";
  }

  lemma CatppuccinPath()
    ensures HasBuiltinPath(Catppuccin())
  {
    assert "builtin://" + "catppuccin" == "builtin://catppuccin";
  }

  lemma TokyoPath()
    ensures HasBuiltinPath(Tokyo())
  {
    assert "builtin://" + "tokyo" == "builtin://tokyo";
  }

  lemma OceanicPath()
    ensures HasBuiltinPath(Oceanic())
  {
    assert "builtin://" + "oceanic" == "builtin://oceanic";
  }

  lemma PalenightPath()
    ensures HasBuiltinPath(Palenight())
  {
    assert "builtin://" + "palenight" == "builtin://palenight";
  }

  lemma OnedarkPath()
    ensures HasBuiltinPath(Onedark())
  {
    assert "builtin://" + "onedark" == "builtin://onedark";
  }

  lemma VimPath()
    ensures HasBuiltinPath(Vim())
  {
    assert "builtin://" + "vim" == "builtin://vim";
  }

  lemma GothamPath()
    ensures HasBuiltinPath(Gotham())
  {
    assert "builtin://" + "gotham" == "builtin://gotham";
  }

  lemma ChallengerPath()
    ensures HasBuiltinPath(Challenger())
  {
    assert "builtin://" + "challenger" == "builtin://challenger";
  }

  lemma MolokaiPath()
    ensures HasBuiltinPath(Molokai())
  {
    assert "builtin://" + "molokai" == "builtin://molokai";
  }

  lemma SonokaiPath()
    ensures HasBuiltinPath(Sonokai())
  {
    assert "builtin://" + "sonokai" == "builtin://sonokai";
  }

  lemma SerenadePath()
    ensures HasBuiltinPath(Serenade())
  {
    assert "builtin://" + "serenade" == "builtin://serenade";
  }

  lemma VaporwavePath()
    ensures HasBuiltinPath(Vaporwave())
  {
    assert "builtin://" + "vaporwave" == "builtin://vaporwave";
  }

  /** Each palette of `get_all` carries the path `builtin://` and its name. */
  lemma BuiltinPaths()
    ensures forall i | 0 <= i < 17 :: HasBuiltinPath(GetAll()[i])
  {
    NordPath(); DraculaPath(); GruvboxPath(); MonokaiPath(); SolarizedPath();
    CatppuccinPath(); TokyoPath(); OceanicPath(); PalenightPath(); OnedarkPath();
    VimPath(); GothamPath(); ChallengerPath(); MolokaiPath(); SonokaiPath();
    SerenadePath(); VaporwavePath();
  }

  /** Every built-in hex is '#' and six hex digits. */
  lemma AllBuiltinsShaped()
    ensures forall i | 0 <= i < 17 :: AllShaped(GetAll()[i].colors)
  {
    NordShaped(); DraculaShaped(); GruvboxShaped(); MonokaiShaped(); SolarizedShaped();
    CatppuccinShaped(); TokyoShaped(); OceanicShaped(); PalenightShaped(); OnedarkShaped();
    VimShaped(); GothamShaped(); ChallengerShaped(); MolokaiShaped(); SonokaiShaped();
    SerenadeShaped(); VaporwaveShaped();
  }

  // ---------------------------------------------------------------- properties

  /** Any palette written out as '#' and six hex digits per colour is decodable, and a converter
      built from it succeeds when it has a colour. */
  lemma ShapedPaletteBuilds(palette: Palette)
    requires AllShaped(palette.colors)
    ensures Decodable(palette.colors)
    ensures forall i | 0 <= i < |palette.colors| :: DecodeColor(palette.colors[i]).Ok?
    ensures palette.colors != [] ==> NearestColorConverter.FromPalette(palette).Ok?
  {
    forall i | 0 <= i < |palette.colors|
      ensures HexParser.HexToRgbDefined(palette.colors[i].hex)
      ensures HexParser.HexToRgb(palette.colors[i].hex).Ok?
    {
      var hex := palette.colors[i].hex;
      assert HexParser.IsHexBody(StripPrefixChar(hex, '#')) by {
        assert StripPrefixChar(hex, '#') == hex[1..];
      }
      HexParser.HexRgbRoundTrip(hex);
    }
    DecodeColorsOk(palette.colors);
  }

  /** A converter built from any built-in palette succeeds: no built-in colour is malformed. */
  lemma BuiltinPalettesBuild(i: nat)
    requires i < 17
    ensures Decodable(GetAll()[i].colors)
    ensures NearestColorConverter.FromPalette(GetAll()[i]).Ok?
  {
    AllBuiltinsShaped();
    assert GetAll()[i].colors != [];
    ShapedPaletteBuilds(GetAll()[i]);
  }

  /** The palettes of `get_all` carry the names of `get_names`, position by position. */
  lemma GetAllMatchesNames()
    ensures forall i | 0 <= i < 17 :: GetAll()[i].name == GetNames()[i]
  {
  }

  /** The seventeen names are distinct. */
  lemma NamesDistinct()
    ensures forall i, j | 0 <= i < j < 17 :: GetNames()[i] != GetNames()[j]
  {
  }

  /** The arm a key selects is the key's position among the names... */
  lemma ArmOnlyNames(key: string)
    ensures Arm(key).Some? ==> GetNames()[Arm(key).value] == key
  {
  }

  /** ... and every name selects an arm. */
  lemma ArmKnowsNames(key: string)
    ensures key in GetNames() ==> Arm(key).Some?
  {
  }

  /** What the `match` answers: a palette of `get_all` carrying the key as its name, and only
      for a key among the names. */
  lemma LookupOnlyNames(key: string)
    ensures Lookup(key).Some? ==> key in GetNames()
  {
    ArmOnlyNames(key);
  }

  lemma LookupFindsNamed(key: string)
    ensures Lookup(key).Some? ==> Lookup(key).value in GetAll() && Lookup(key).value.name == key
  {
    ArmOnlyNames(key);
    GetAllMatchesNames();
  }

  lemma LookupKnowsNames(key: string)
    ensures key in GetNames() ==> Lookup(key).Some?
  {
    ArmKnowsNames(key);
  }

  /** `get_palette` answers exactly for the names of `get_names`, in any ASCII case, with the
      palette of `get_all` of that name, whose path is `builtin://` and the name. */
  lemma GetPaletteSpec(name: string)
    ensures GetPalette(name).Some? <==> ToLower(name) in GetNames()
    ensures GetPalette(name).Some? ==>
      var p := GetPalette(name).value;
      p in GetAll() && p.name == ToLower(name) && p.path == "builtin://" + ToLower(name)
  {
    var key := ToLower(name);
    LookupOnlyNames(key);
    LookupKnowsNames(key);
    LookupFindsNamed(key);
    BuiltinPaths();
  }

  /** Looking up a name and looking up its lower case give the same answer. */
  lemma GetPaletteIgnoresCase(name: string)
    ensures GetPalette(name) == GetPalette(ToLower(name))
  {
    ToLowerIdempotent(name);
  }

  /** Lower-case ASCII text is its own lower case. */
  lemma LowerIsFixed(s: string)
    requires forall i | 0 <= i < |s| :: 'a' <= s[i] <= 'z'
    ensures ToLower(s) == s
  {
  }

  /** The names are written in lower case. */
  lemma NamesAreLower()
    ensures forall i | 0 <= i < 17 :: ToLower(GetNames()[i]) == GetNames()[i]
  {
    forall i | 0 <= i < 17
      ensures ToLower(GetNames()[i]) == GetNames()[i]
    {
      LowerIsFixed(GetNames()[i]);
    }
  }

  /** Every listed name finds the palette at its position. */
  lemma EveryNameFound(i: nat)
    requires i < 17
    ensures GetPalette(GetNames()[i]) == Some(GetAll()[i])
  {
    var n := GetNames()[i];
    NamesAreLower();
    GetPaletteSpec(n);
    GetAllMatchesNames();
    NamesDistinct();
    var p := GetPalette(n).value;
    var j :| 0 <= j < 17 && GetAll()[j] == p;
    assert GetNames()[j] == n;
  }

  lemma LowerExamples()
    ensures ToLower("NORD") == "nord" && ToLower("Nord") == "nord" && ToLower("unknown") == "unknown"
  {
    assert ToLower("unknown") == "unknown" by {
      LowerIsFixed("unknown");
    }
  }

  /** The documented lookups: "NORD", "Nord" and "nord" all find nord, "unknown" finds nothing;
      nord has sixteen colours, the first "#2E3440". */
  lemma GetPaletteExamples()
    ensures GetPalette("NORD") == Some(Nord()) && GetPalette("Nord") == Some(Nord())
    ensures GetPalette("nord") == Some(Nord()) && GetPalette("unknown").None?
    ensures |Nord().colors| == 16 && Nord().colors[0].hex == "#2E3440"
  {
    LowerExamples();
    assert Arm("nord") == Some(0);
    assert Arm("unknown") == None;
  }

  /** A hex listed twice in a palette of well-formed colours: the converter holds the colour twice
      and the later copy is never the match. */
  lemma RepeatedHexNeverMatched(palette: Palette, i: nat, j: nat, target: Rgb)
    requires AllShaped(palette.colors)
    requires i < j < |palette.colors| && palette.colors[i].hex == palette.colors[j].hex
    ensures Decodable(palette.colors) && NearestColorConverter.FromPalette(palette).Ok?
    ensures var colors := NearestColorConverter.FromPalette(palette).value.paletteColors;
      colors[i] == colors[j] && NearestIndex(colors, target) != j
  {
    ShapedPaletteBuilds(palette);
    NewKeepsDeclarationOrder(palette);
    var colors := NearestColorConverter.FromPalette(palette).value.paletteColors;
    LaterDuplicateNeverChosen(colors, target, i, j);
  }

  /** vaporwave lists #F92672 as pink and as red, and #66D9EF as cyan and as blue: pink and cyan,
      listed first, are the ones matched. */
  lemma VaporwaveRepeats(target: Rgb)
    ensures Vaporwave().colors[2].hex == Vaporwave().colors[8].hex == "#F92672"
    ensures Vaporwave().colors[4].hex == Vaporwave().colors[9].hex == "#66D9EF"
    ensures Decodable(Vaporwave().colors) && NearestColorConverter.FromPalette(Vaporwave()).Ok? &&
      NearestIndex(NearestColorConverter.FromPalette(Vaporwave()).value.paletteColors, target) !in {8, 9}
  {
    VaporwaveShaped();
    RepeatedHexNeverMatched(Vaporwave(), 2, 8, target);
    RepeatedHexNeverMatched(Vaporwave(), 4, 9, target);
  }

  /** challenger lists #CBE3E7 as foreground and as white: foreground is the one matched. */
  lemma ChallengerRepeat(target: Rgb)
    ensures Challenger().colors[1].hex == Challenger().colors[9].hex == "#CBE3E7"
    ensures Decodable(Challenger().colors) && NearestColorConverter.FromPalette(Challenger()).Ok? &&
      NearestIndex(NearestColorConverter.FromPalette(Challenger()).value.paletteColors, target) != 9
  {
    ChallengerShaped();
    RepeatedHexNeverMatched(Challenger(), 1, 9, target);
  }

  /** serenade lists #D4D4D6 as foreground and as white: foreground is the one matched. */
  lemma SerenadeRepeat(target: Rgb)
    ensures Serenade().colors[1].hex == Serenade().colors[9].hex == "#D4D4D6"
    ensures Decodable(Serenade().colors) && NearestColorConverter.FromPalette(Serenade()).Ok? &&
      NearestIndex(NearestColorConverter.FromPalette(Serenade()).value.paletteColors, target) != 9
  {
    SerenadeShaped();
    RepeatedHexNeverMatched(Serenade(), 1, 9, target);
  }
}
