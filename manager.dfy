/** `PaletteManager` (src/palette/mod.rs): every palette the program knows, keyed by its
    lower-cased name. The built-ins go in first and the user's TOML palettes after them, so a TOML
    palette replaces a built-in (or an earlier TOML palette) whose name differs only in case. */
module Manager {
  import opened Wrappers
  import opened Types
  import opened Text
  import opened Errors
  import Builtin
  import opened TomlLoader
  import opened FileSystem
  import Converter

  // ---------------------------------------------------------------- the map

  /** `m` after `insert(p.name.to_lowercase(), p)` for each `p` of `ps`, in order. */
  function Override(m: map<string, Palette>, ps: seq<Palette>): map<string, Palette>
    decreases |ps|
  {
    if ps == [] then m
    else Override(m, ps[..|ps| - 1])[ToLower(ps[|ps| - 1].name) := ps[|ps| - 1]]
  }

  /** Palette `i` of `ps` goes in under `key`. */
  ghost predicate InsertedAt(ps: seq<Palette>, i: int, key: string)
  {
    0 <= i < |ps| && ToLower(ps[i].name) == key
  }

  /** A key is present afterwards exactly when it was before or some palette went in under it. */
  lemma {:induction false} OverrideKeys(m: map<string, Palette>, ps: seq<Palette>, key: string)
    ensures key in Override(m, ps) <==> key in m || exists i :: InsertedAt(ps, i, key)
    decreases |ps|
  {
    if ps != [] {
      var n := |ps| - 1;
      var init := ps[..n];
      OverrideKeys(m, init, key);
      assert forall i | 0 <= i < n :: InsertedAt(init, i, key) == InsertedAt(ps, i, key);
      if exists i :: InsertedAt(ps, i, key) {
        var i :| InsertedAt(ps, i, key);
        if i < n {
          assert InsertedAt(init, i, key);
        }
      }
      if exists i :: InsertedAt(init, i, key) {
        var i :| InsertedAt(init, i, key);
        assert InsertedAt(ps, i, key);
      }
      if ToLower(ps[n].name) == key {
        assert InsertedAt(ps, n, key);
      }
    }
  }

  /** Palettes whose names are distinct and already lower case each sit under their own name,
      and no other key is present. */
  lemma DistinctLowerNames(ps: seq<Palette>, key: string)
    requires forall i | 0 <= i < |ps| :: ToLower(ps[i].name) == ps[i].name
    requires forall i, j | 0 <= i < j < |ps| :: ps[i].name != ps[j].name
    ensures key in Override(map[], ps) <==> exists i | 0 <= i < |ps| :: ps[i].name == key
    ensures forall i | 0 <= i < |ps| && ps[i].name == key ::
      key in Override(map[], ps) && Override(map[], ps)[key] == ps[i]
  {
    OverrideKeys(map[], ps, key);
    forall i | 0 <= i < |ps| && ps[i].name == key
      ensures key in Override(map[], ps) && Override(map[], ps)[key] == ps[i]
    {
      assert forall j | i < j < |ps| :: !InsertedAt(ps, j, key);
      OverrideLastWins(map[], ps, i);
    }
    if exists i :: InsertedAt(ps, i, key) {
      var i :| InsertedAt(ps, i, key);
      assert ps[i].name == key;
    }
  }

  /** The value under a key is the last palette that went in under it. */
  lemma {:induction false} OverrideLastWins(m: map<string, Palette>, ps: seq<Palette>, i: nat)
    requires i < |ps|
    requires forall j | i < j < |ps| :: !InsertedAt(ps, j, ToLower(ps[i].name))
    ensures ToLower(ps[i].name) in Override(m, ps)
    ensures Override(m, ps)[ToLower(ps[i].name)] == ps[i]
    decreases |ps|
  {
    var n := |ps| - 1;
    if i < n {
      var init := ps[..n];
      assert !InsertedAt(ps, n, ToLower(ps[i].name));
      assert forall j | i < j < n :: InsertedAt(init, j, ToLower(ps[i].name)) == InsertedAt(ps, j, ToLower(ps[i].name));
      OverrideLastWins(m, init, i);
    }
  }

  /** A key nothing went in under keeps its old value. */
  lemma {:induction false} OverrideKeepsOthers(m: map<string, Palette>, ps: seq<Palette>, key: string)
    requires key in m
    requires forall i | 0 <= i < |ps| :: !InsertedAt(ps, i, key)
    ensures key in Override(m, ps) && Override(m, ps)[key] == m[key]
    decreases |ps|
  {
    if ps != [] {
      var n := |ps| - 1;
      assert !InsertedAt(ps, n, key);
      assert forall i | 0 <= i < n :: InsertedAt(ps[..n], i, key) == InsertedAt(ps, i, key);
      OverrideKeepsOthers(m, ps[..n], key);
    }
  }

  /** Every palette sits under the lower case of its own name. */
  ghost predicate KeyedByName(m: map<string, Palette>)
  {
    forall key | key in m :: ToLower(m[key].name) == key
  }

  /** Inserting keeps every palette under the lower case of its own name. */
  lemma {:induction false} OverrideKeyedByName(m: map<string, Palette>, ps: seq<Palette>)
    requires KeyedByName(m)
    ensures KeyedByName(Override(m, ps))
    decreases |ps|
  {
    if ps != [] {
      var n := |ps| - 1;
      OverrideKeyedByName(m, ps[..n]);
      ToLowerIdempotent(ps[n].name);
    }
  }

  /** One more palette inserts it under its lower-cased name. */
  lemma OverrideStep(m: map<string, Palette>, ps: seq<Palette>, i: nat)
    requires i < |ps|
    ensures Override(m, ps[..i + 1]) == Override(m, ps[..i])[ToLower(ps[i].name) := ps[i]]
  {
    assert ps[..i + 1][..i] == ps[..i];
  }

  // ---------------------------------------------------------------- sorting names

  /** Ascending without repeats, in `String`'s order. */
  predicate StrictlySorted(s: seq<string>)
  {
    forall i, j | 0 <= i < j < |s| :: Less(s[i], s[j])
  }

  /** The step of `names.sort()` that puts one more key in its place. */
  function InsertSorted(s: seq<string>, key: string): (r: seq<string>)
    requires StrictlySorted(s) && key !in s
    ensures StrictlySorted(r) && |r| == |s| + 1
    ensures forall x :: x in r <==> x in s || x == key
    decreases |s|
  {
    if s == [] then [key]
    else if Less(key, s[0]) then
      assert forall j | 0 < j < |s| :: Less(key, s[j]) by {
        forall j | 0 < j < |s| ensures Less(key, s[j]) {
          LessTransitive(key, s[0], s[j]);
        }
      }
      [key] + s
    else
      assert key != s[0];
      LessTotal(key, s[0]);
      var rest := InsertSorted(s[1..], key);
      assert forall x | x in rest :: Less(s[0], x);
      [s[0]] + rest
  }

  // ---------------------------------------------------------------- the manager

  class PaletteManager {
    /** Palettes by lower-cased name. */
    var palettes: map<string, Palette>

    /** Each palette is stored under the lower case of its name. */
    ghost predicate Valid()
      reads this
    {
      KeyedByName(palettes)
    }

    /** `PaletteManager::new`: no palettes yet. */
    constructor()
      ensures palettes == map[] && Valid()
    {
      palettes := map[];
    }

    /** The insertion loops of `load_all_palettes`: each palette under its lower-cased name. */
    method InsertAll(ps: seq<Palette>)
      modifies this
      ensures palettes == Override(old(palettes), ps)
      ensures old(Valid()) ==> Valid()
    {
      for i := 0 to |ps|
        invariant palettes == Override(old(palettes), ps[..i])
      {
        OverrideStep(old(palettes), ps, i);
        palettes := palettes[ToLower(ps[i].name) := ps[i]];
      }
      assert ps[..|ps|] == ps;
      if old(Valid()) {
        OverrideKeyedByName(old(palettes), ps);
      }
    }

    /** `load_all_palettes`: the built-ins, then the palettes `TomlPaletteLoader::new` finds
        through the environment, each under its lower-cased name. A failure of the TOML loader is
        returned with the built-ins already in. */
    method LoadAllPalettes(fs: Fs, env: Env, parse: string -> Result<TomlPalette, string>)
      returns (r: BucketResult<()>)
      requires Valid()
      modifies this
      ensures Valid()
      ensures TomlPalettesIn(fs, DefaultSearchPaths(env), parse).Err? ==>
        r == Err(TomlPalettesIn(fs, DefaultSearchPaths(env), parse).error) &&
        palettes == Override(old(palettes), Builtin.GetAll())
      ensures TomlPalettesIn(fs, DefaultSearchPaths(env), parse).Ok? ==>
        r == Ok(()) &&
        palettes == Override(Override(old(palettes), Builtin.GetAll()), TomlPalettesIn(fs, DefaultSearchPaths(env), parse).value)
    {
      InsertAll(Builtin.GetAll());
      var loader := TomlPaletteLoader.New(env);
      var loaded := loader.LoadPalettes(fs, parse);
      if loaded.Err? {
        return Err(loaded.error);
      }
      InsertAll(loaded.value);
      return Ok(());
    }

    /** `get_palette`: the palette under the lower-cased name. */
    function GetPalette(name: string): Option<Palette>
      reads this
    {
      var key := ToLower(name);
      if key in palettes then Some(palettes[key]) else None
    }

    /** `palette_exists`: whether a palette is under the lower-cased name. */
    predicate PaletteExists(name: string)
      reads this
    {
      ToLower(name) in palettes
    }

    /** The two queries agree, ignore ASCII case, and find only a palette whose own name is the
        query up to case. */
    lemma QueriesAgree(name: string, other: string)
      requires Valid()
      ensures PaletteExists(name) <==> GetPalette(name).Some?
      ensures ToLower(name) == ToLower(other) ==>
        GetPalette(name) == GetPalette(other) && PaletteExists(name) == PaletteExists(other)
      ensures GetPalette(name).Some? ==> ToLower(GetPalette(name).value.name) == ToLower(name)
    {
    }

    /** `get_palette_names`: the keys, sorted ascending. */
    method GetPaletteNames() returns (names: seq<string>)
      ensures StrictlySorted(names)
      ensures forall key :: key in names <==> key in palettes
      ensures |names| == |palettes|
    {
      var rest := palettes.Keys;
      names := [];
      while rest != {}
        invariant rest <= palettes.Keys
        invariant StrictlySorted(names)
        invariant forall key :: key in names <==> key in palettes && key !in rest
        invariant |names| + |rest| == |palettes|
        decreases |rest|
      {
        var key :| key in rest;
        names := InsertSorted(names, key);
        rest := rest - {key};
      }
    }

    /** `get_builtin_palette_names`: every name it gives is a built-in one. */
    function GetBuiltinPaletteNames(): (names: seq<string>)
      ensures |names| == 17
      ensures forall i | 0 <= i < |names| :: IsBuiltinPalette(names[i])
    {
      Builtin.NamesAreLower();
      Builtin.GetNames()
    }

    /** `is_builtin_palette`: asks the built-in table, not the map, so what has been loaded
        (a TOML palette of the same name included) does not change the answer. */
    function IsBuiltinPalette(name: string): (r: bool)
      ensures r <==> ToLower(name) in Builtin.GetNames()
    {
      Builtin.GetPaletteSpec(name);
      Builtin.GetPalette(name).Some?
    }
  }

  // ---------------------------------------------------------------- after loading

  /** What a successful `load_all_palettes` on a new manager leaves: a name is known exactly when
      it is a built-in one or a TOML palette's up to case, and then it finds the last TOML palette
      of that name up to case, otherwise the built-in. */
  lemma {:induction false} LoadedLookup(tomls: seq<Palette>, name: string)
    ensures var m := Override(Override(map[], Builtin.GetAll()), tomls);
      var key := ToLower(name);
      (key in m <==> Builtin.GetPalette(name).Some? || exists i :: InsertedAt(tomls, i, key)) &&
      (key in m && !(exists i :: InsertedAt(tomls, i, key)) ==> m[key] == Builtin.GetPalette(name).value)
  {
    var builtins := Override(map[], Builtin.GetAll());
    var key := ToLower(name);
    BuiltinKeys(key);
    Builtin.GetPaletteSpec(name);
    Builtin.GetPaletteIgnoresCase(name);
    OverrideKeys(builtins, tomls, key);
    if key in builtins && !(exists i :: InsertedAt(tomls, i, key)) {
      OverrideKeepsOthers(builtins, tomls, key);
    }
  }

  /** The built-ins alone: each sits under its name, which is the key `get_palette` looks up. */
  lemma BuiltinKeys(key: string)
    ensures key in Override(map[], Builtin.GetAll()) <==> Builtin.Lookup(key).Some?
    ensures key in Override(map[], Builtin.GetAll()) ==>
      Override(map[], Builtin.GetAll())[key] == Builtin.Lookup(key).value
  {
    var all := Builtin.GetAll();
    var names := Builtin.GetNames();
    Builtin.NamesAreLower();
    Builtin.GetAllMatchesNames();
    Builtin.NamesDistinct();
    DistinctLowerNames(all, key);
    Builtin.LookupOnlyNames(key);
    Builtin.LookupKnowsNames(key);
    if key in names {
      var i :| 0 <= i < 17 && names[i] == key;
      Builtin.EveryNameFound(i);
    }
  }

  /** Every palette under a key of the map can be handed to a converter. */
  predicate AllDecodable(m: map<string, Palette>)
  {
    forall key | key in m :: Converter.Decodable(m[key].colors)
  }

  /** Inserting palettes that can be handed to a converter keeps the whole map so. */
  lemma {:induction false} OverrideDecodable(m: map<string, Palette>, ps: seq<Palette>)
    requires AllDecodable(m)
    requires forall p | p in ps :: Converter.Decodable(p.colors)
    ensures AllDecodable(Override(m, ps))
    decreases |ps|
  {
    if ps != [] {
      var n := |ps| - 1;
      assert forall p | p in ps[..n] :: p in ps;
      OverrideDecodable(m, ps[..n]);
    }
  }

  lemma BuiltinsDecodable()
    ensures forall p | p in Builtin.GetAll() :: Converter.Decodable(p.colors)
  {
    var all := Builtin.GetAll();
    forall p | p in all ensures Converter.Decodable(p.colors) {
      var i :| 0 <= i < |all| && all[i] == p;
      Builtin.BuiltinPalettesBuild(i);
    }
  }

  /** After `load_all_palettes` succeeds on an empty manager, every palette it holds, built-in or
      TOML, can be handed to `NearestColorConverter::new` and then to `process_image`. */
  lemma LoadedDecodable(fs: Fs, env: Env, parse: string -> Result<TomlPalette, string>)
    requires TomlPalettesIn(fs, DefaultSearchPaths(env), parse).Ok?
    ensures AllDecodable(Override(Override(map[], Builtin.GetAll()), TomlPalettesIn(fs, DefaultSearchPaths(env), parse).value))
  {
    var all := Builtin.GetAll();
    BuiltinsDecodable();
    OverrideDecodable(map[], all);
    TomlPalettesDecodable(fs, DefaultSearchPaths(env), parse);
    OverrideDecodable(Override(map[], all), TomlPalettesIn(fs, DefaultSearchPaths(env), parse).value);
  }

  /** A TOML palette replaces the built-in of its name up to case: after loading "NORD" from a
      TOML file, `get_palette("nord")` finds it and `is_builtin_palette("nord")` still holds. */
  lemma TomlOverridesBuiltin(toml: Palette)
    requires ToLower(toml.name) == "nord"
    ensures var m := Override(Override(map[], Builtin.GetAll()), [toml]);
      "nord" in m && m["nord"] == toml && Builtin.GetPalette("nord").Some?
  {
    OverrideLastWins(Override(map[], Builtin.GetAll()), [toml], 0);
    Builtin.GetPaletteExamples();
  }
}
