/** The slice of `std::fs` and `std::path` the palette loaders use. The file system is a value:
    the node each existing path names. A directory lists its entries in the order `read_dir`
    yields them (an unspecified order, so a parameter here); an entry that cannot be read is the
    error `read_dir` yields in its place. */
module FileSystem {
  import opened Wrappers
  import opened Text

  /** What a path names: a file with its text, or a directory with its entry names; each is
      instead the message of the `io::Error` reading it gives. */
  datatype Node =
    | File(content: Result<string, string>)
    | Dir(listing: Result<seq<Result<string, string>>, string>)

  /** Every path that exists, and what it names. */
  type Fs = map<string, Node>

  /** `Path::exists`. */
  predicate Exists(fs: Fs, path: string)
  {
    path in fs
  }

  /** `Path::is_file`. */
  predicate IsFile(fs: Fs, path: string)
  {
    path in fs && fs[path].File?
  }

  /** `Path::is_dir`. */
  predicate IsDir(fs: Fs, path: string)
  {
    path in fs && fs[path].Dir?
  }

  /** `fs::read_to_string`: the file's text, or the operating system's message. */
  function ReadToString(fs: Fs, path: string): (r: Result<string, string>)
    ensures r.Ok? ==> IsFile(fs, path)
  {
    if path !in fs then Err("No such file or directory (os error 2)")
    else match fs[path]
      case File(content) => content
      case Dir(_) => Err("Is a directory (os error 21)")
  }

  /** `fs::read_dir`: the directory's entries, or the operating system's message. */
  function ReadDir(fs: Fs, path: string): (r: Result<seq<Result<string, string>>, string>)
    ensures r.Ok? ==> IsDir(fs, path)
  {
    if path !in fs then Err("No such file or directory (os error 2)")
    else match fs[path]
      case Dir(listing) => listing
      case File(_) => Err("Not a directory (os error 20)")
  }

  /** `Path::join` of a relative component: a '/' goes between the two unless the directory is
      empty or already ends with one. An absolute component replaces the directory. */
  function JoinPath(dir: string, name: string): (p: string)
    ensures !StartsWith(name, "/") && dir != [] && dir[|dir| - 1] != '/' ==> p == dir + "/" + name
  {
    if StartsWith(name, "/") then name
    else if dir == [] || dir[|dir| - 1] == '/' then dir + name
    else dir + "/" + name
  }

  /** The position of the last `c` in `s`, if any. */
  function LastIndexOf(s: string, c: char): (r: Option<nat>)
    ensures r.None? <==> c !in s
    ensures r.Some? ==> r.value < |s| && s[r.value] == c && c !in s[r.value + 1..]
    decreases |s|
  {
    if s == [] then None
    else if s[|s| - 1] == c then Some(|s| - 1)
    else
      var r := LastIndexOf(s[..|s| - 1], c);
      assert s == s[..|s| - 1] + [s[|s| - 1]];
      r
  }

  /** `Path::extension` of an entry name: what follows the last '.', unless there is no '.',
      the only one starts the name, or the name is "..". */
  function Extension(name: string): Option<string>
  {
    match LastIndexOf(name, '.')
    case None => None
    case Some(i) => if i == 0 || name == ".." then None else Some(name[i + 1..])
  }

  /** `Path::file_stem` of an entry name: what precedes the last '.', or the whole name when
      `Extension` finds none. */
  function FileStem(name: string): string
  {
    match LastIndexOf(name, '.')
    case None => name
    case Some(i) => if i == 0 || name == ".." then name else name[..i]
  }

  /** A name with an extension is its stem, a '.', and that extension; the extension holds no
      '.' and the stem is not empty. */
  lemma ExtensionSplitsName(name: string)
    requires Extension(name).Some?
    ensures name == FileStem(name) + "." + Extension(name).value
    ensures '.' !in Extension(name).value && FileStem(name) != []
  {
    var i := LastIndexOf(name, '.').value;
    assert name == name[..i] + "." + name[i + 1..];
  }

  /** Conversely, a non-empty stem, a '.' and an extension without '.' give back that stem and
      that extension. */
  lemma {:induction false} StemAndExtension(stem: string, ext: string)
    requires stem != [] && '.' !in ext && ext != []
    ensures Extension(stem + "." + ext) == Some(ext)
    ensures FileStem(stem + "." + ext) == stem
  {
    LastDotOfJoin(stem, ext);
  }

  lemma {:induction false} LastDotOfJoin(stem: string, ext: string)
    requires '.' !in ext
    ensures LastIndexOf(stem + "." + ext, '.') == Some(|stem|)
    decreases |ext|
  {
    var name := stem + "." + ext;
    if ext != [] {
      var n := |name| - 1;
      assert name[..n] == stem + "." + ext[..|ext| - 1];
      assert name[n] == ext[|ext| - 1];
      LastDotOfJoin(stem, ext[..|ext| - 1]);
    }
  }
}
