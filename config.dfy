/**
 * config.go: the configuration handle and its typed accessors, each of which
 * is "look the key up, then cast with a default", and `Load`, which reads the
 * first candidate file, parses it, and overlays the environment and then the
 * flags, so that a flag beats an environment entry and both beat the file.
 */
module Config {
  import opened Wrappers
  import opened Types
  import opened Text
  import opened Helper
  import opened Cast

  /**
   * `ConfigGet(fn, config, path, delim, def...)`: resolve `path` with `Get`
   * and hand what was found, or `nil`, to the cast function `fn` together with
   * the defaults. The key is matched without regard to case.
   */
  function ConfigGet<T>(fn: (Option<Value>, seq<T>) -> T, config: Object, path: string, delim: char, def: seq<T>): (r: T)
    ensures Get(config, path, delim).None? ==> r == fn(None, def)
    ensures r == fn(Get(config, ToLower(path), delim), def)
  {
    GetCaseInsensitive(config, path, delim);
    fn(Get(config, path, delim), def)
  }

  /** The handle `Load` returns: the overlaid tree and the query delimiter. */
  datatype Config = Config(src: Object, delim: char)
  {
    function GetBool(toBoolE: Converter<bool>, key: string, def: seq<bool>): (r: bool)
      ensures FallsBack(toBoolE(Get(src, key, delim)), def, r)
    {
      ConfigGet((val, d) => CastBool(toBoolE, val, d), src, key, delim, def)
    }

    function GetString(toStringE: Converter<string>, key: string, def: seq<string>): (r: string)
      ensures FallsBack(toStringE(Get(src, key, delim)), def, r)
    {
      ConfigGet((val, d) => CastString(toStringE, val, d), src, key, delim, def)
    }

    function GetDuration(toDurationE: Converter<Duration>, key: string, def: seq<Duration>): (r: Duration)
      ensures FallsBack(toDurationE(Get(src, key, delim)), def, r)
    {
      ConfigGet((val, d) => CastDuration(toDurationE, val, d), src, key, delim, def)
    }

    function GetInt(toIntE: Converter<int64>, key: string, def: seq<int64>): (r: int64)
      ensures FallsBack(toIntE(Get(src, key, delim)), def, r)
    {
      ConfigGet((val, d) => CastInt(toIntE, val, d), src, key, delim, def)
    }

    function GetInt8(toInt8E: Converter<int8>, key: string, def: seq<int8>): (r: int8)
      ensures FallsBack(toInt8E(Get(src, key, delim)), def, r)
    {
      ConfigGet((val, d) => CastInt8(toInt8E, val, d), src, key, delim, def)
    }

    function GetInt16(toInt16E: Converter<int16>, key: string, def: seq<int16>): (r: int16)
      ensures FallsBack(toInt16E(Get(src, key, delim)), def, r)
    {
      ConfigGet((val, d) => CastInt16(toInt16E, val, d), src, key, delim, def)
    }

    function GetInt32(toInt32E: Converter<int32>, key: string, def: seq<int32>): (r: int32)
      ensures FallsBack(toInt32E(Get(src, key, delim)), def, r)
    {
      ConfigGet((val, d) => CastInt32(toInt32E, val, d), src, key, delim, def)
    }

    function GetInt64(toInt64E: Converter<int64>, key: string, def: seq<int64>): (r: int64)
      ensures FallsBack(toInt64E(Get(src, key, delim)), def, r)
    {
      ConfigGet((val, d) => CastInt64(toInt64E, val, d), src, key, delim, def)
    }

    function GetUint(toUintE: Converter<uint64>, key: string, def: seq<uint64>): (r: uint64)
      ensures FallsBack(toUintE(Get(src, key, delim)), def, r)
    {
      ConfigGet((val, d) => CastUint(toUintE, val, d), src, key, delim, def)
    }

    function GetUint8(toUint8E: Converter<uint8>, key: string, def: seq<uint8>): (r: uint8)
      ensures FallsBack(toUint8E(Get(src, key, delim)), def, r)
    {
      ConfigGet((val, d) => CastUint8(toUint8E, val, d), src, key, delim, def)
    }

    function GetUint16(toUint16E: Converter<uint16>, key: string, def: seq<uint16>): (r: uint16)
      ensures FallsBack(toUint16E(Get(src, key, delim)), def, r)
    {
      ConfigGet((val, d) => CastUint16(toUint16E, val, d), src, key, delim, def)
    }

    function GetUint32(toUint32E: Converter<uint32>, key: string, def: seq<uint32>): (r: uint32)
      ensures FallsBack(toUint32E(Get(src, key, delim)), def, r)
    {
      ConfigGet((val, d) => CastUint32(toUint32E, val, d), src, key, delim, def)
    }

    function GetUint64(toUint64E: Converter<uint64>, key: string, def: seq<uint64>): (r: uint64)
      ensures FallsBack(toUint64E(Get(src, key, delim)), def, r)
    {
      ConfigGet((val, d) => CastUint64(toUint64E, val, d), src, key, delim, def)
    }

    function GetObject(toStringMapE: Converter<Object>, key: string, def: seq<Object>): (r: Object)
      ensures FallsBack(toStringMapE(Get(src, key, delim)), def, r)
    {
      ConfigGet((val, d) => CastObject(toStringMapE, val, d), src, key, delim, def)
    }

    function GetTime(toTimeE: Converter<Time>, key: string, def: seq<Time>): (r: Time)
      ensures FallsBack(toTimeE(Get(src, key, delim)), def, r)
    {
      ConfigGet((val, d) => CastTime(toTimeE, val, d), src, key, delim, def)
    }

    function GetIntSlice(toIntSliceE: Converter<seq<int64>>, key: string, def: seq<seq<int64>>): (r: seq<int64>)
      ensures FallsBack(toIntSliceE(Get(src, key, delim)), def, r)
    {
      ConfigGet((val, d) => CastIntSlice(toIntSliceE, val, d), src, key, delim, def)
    }

    function GetSlice(toSliceE: Converter<seq<Value>>, key: string, def: seq<seq<Value>>): (r: seq<Value>)
      ensures FallsBack(toSliceE(Get(src, key, delim)), def, r)
    {
      ConfigGet((val, d) => CastSlice(toSliceE, val, d), src, key, delim, def)
    }
  }

  /**
   * A key that resolves to nothing gives the first default, whatever the other
   * defaults, provided the converter rejects `nil`.
   */
  lemma AbsentKeyGivesDefault<T>(fn: Converter<T>, config: Object, key: string, delim: char, d: T, rest: seq<T>)
    requires Get(config, key, delim).None? && fn(None).err.Some?
    ensures ConfigGet((val, def) => CastWithDefault(fn, val, def), config, key, delim, [d] + rest) == d
  {
  }

  /** A value the converter accepts comes back converted, and the defaults are ignored. */
  lemma PresentValueConverted<T>(fn: Converter<T>, config: Object, key: string, delim: char, v: Value, def: seq<T>)
    requires Get(config, key, delim) == Some(v) && fn(Some(v)).err.None?
    ensures ConfigGet((val, d) => CastWithDefault(fn, val, d), config, key, delim, def) == fn(Some(v)).result
  {
  }

  /** The configuration files `Load` tries, in order. */
  function Candidates(program: string): (r: seq<string>)
    ensures |r| == 2 && r[0] == DEFAULT_FILE
    ensures r[1] == "/etc/" + ToLower(program) + "/" + DEFAULT_FILE
  {
    [DEFAULT_FILE, "/etc/" + ToLower(program) + "/" + DEFAULT_FILE]
  }

  /** `Load`'s variadic switch: binding is on unless the first argument is `false`. */
  function BindRequested(bindEnvAndFlag: seq<bool>): (r: bool)
    ensures !r <==> |bindEnvAndFlag| > 0 && !bindEnvAndFlag[0]
  {
    |bindEnvAndFlag| <= 0 || bindEnvAndFlag[0]
  }

  /** The parsed file tree after the environment writes and then the flag writes. */
  function Bound(file: Object, envs: seq<string>, flags: seq<Flag>): Object {
    ApplyWrites(file, EnvWrites(envs) + FlagWrites(flags))
  }

  /**
   * `Load(bindEnvAndFlag...)`, with the process's inputs as parameters: the
   * program name `os.Args[0]`, the file system, the TOML parser, the
   * environment as `os.Environ` lists it, and the flags as `flag.VisitAll`
   * visits them. Errors from choosing or parsing the file come back without a
   * handle; otherwise the handle holds the parsed tree, overlaid when binding
   * is on, and queries with `"."`.
   */
  method Load(bindEnvAndFlag: seq<bool>, program: string, fs: FileSystem,
              parse: seq<byte> -> Result<Object, Error>, envs: seq<string>, flags: seq<Flag>)
    returns (r: Result<Config, Error>)
    ensures FirstCandidate(fs, Candidates(program)).Failure? ==>
              r == Failure(FirstCandidate(fs, Candidates(program)).error)
    ensures FirstCandidate(fs, Candidates(program)).Success? ==>
              var parsed := parse(FirstCandidate(fs, Candidates(program)).value);
              r == (match parsed
                    case Failure(e) => Failure(e)
                    case Success(tree) =>
                      Success(Config(if BindRequested(bindEnvAndFlag) then Bound(tree, envs, flags) else tree, KEY_DELIM)))
  {
    var candidates := Candidates(program);
    var fileBytes := OpenCandidate(fs, candidates);
    if fileBytes.Failure? {
      return Failure(fileBytes.error);
    }
    var parsed := parse(fileBytes.value);
    if parsed.Failure? {
      return Failure(parsed.error);
    }
    var src := new Tree(parsed.value);
    var bind := BindRequested(bindEnvAndFlag);
    if bind {
      BindEnv(src, envs);
      BindFlag(src, flags);
      ApplyWritesAppend(parsed.value, EnvWrites(envs), FlagWrites(flags));
    }
    return Success(Config(src.entries, KEY_DELIM));
  }

  /**
   * A flag's value ends up at its path, over any environment entry and any
   * earlier flag, provided the path was writable in the file, no other write
   * put a value on a strict prefix of it, and no later flag writes at it or
   * above it.
   */
  lemma FlagWins(file: Object, envs: seq<string>, flags: seq<Flag>, k: nat)
    requires k < |flags|
    requires Writable(file, FlagPath(flags[k].name))
    requires forall w :: w in EnvWrites(envs) + FlagWrites(flags[..k]) ==> !StrictPrefix(w.path, FlagPath(flags[k].name))
    requires forall w :: w in FlagWrites(flags[k + 1..]) ==> !IsPrefix(w.path, FlagPath(flags[k].name))
    ensures SearchMap(Bound(file, envs, flags), FlagPath(flags[k].name)) == Some(Str(flags[k].value))
  {
    var fw := Write(FlagPath(flags[k].name), Str(flags[k].value));
    AroundIndex(flags, k);
    FlagWritesAppend(flags[..k] + [flags[k]], flags[k + 1..]);
    FlagWritesAppend(flags[..k], [flags[k]]);
    assert FlagWrites([flags[k]]) == [fw];
    assert EnvWrites(envs) + FlagWrites(flags)
        == (EnvWrites(envs) + FlagWrites(flags[..k])) + [fw] + FlagWrites(flags[k + 1..]);
    LastWriteWins(file, EnvWrites(envs) + FlagWrites(flags[..k]), fw, FlagWrites(flags[k + 1..]));
  }

  /**
   * An environment entry `NAME=VALUE` ends up at its path, over the file and
   * any earlier entry, provided the path was writable in the file, no earlier
   * entry put a value on a strict prefix of it, and no later entry and no flag
   * writes at it or above it.
   */
  lemma EnvWins(file: Object, envs: seq<string>, flags: seq<Flag>, k: nat, name: string, value: string)
    requires k < |envs| && SplitEnv(envs[k]) == Some((name, value))
    requires Writable(file, EnvPath(name))
    requires forall w :: w in EnvWrites(envs[..k]) ==> !StrictPrefix(w.path, EnvPath(name))
    requires forall w :: w in EnvWrites(envs[k + 1..]) + FlagWrites(flags) ==> !IsPrefix(w.path, EnvPath(name))
    ensures SearchMap(Bound(file, envs, flags), EnvPath(name)) == Some(Str(value))
  {
    var ew := Write(EnvPath(name), Str(value));
    EnvWritesAround(envs, k, name, value);
    ConcatAround(EnvWrites(envs[..k]), ew, EnvWrites(envs[k + 1..]), FlagWrites(flags));
    LastWriteWins(file, EnvWrites(envs[..k]), ew, EnvWrites(envs[k + 1..]) + FlagWrites(flags));
  }

  /** The writes of the environment around the entry at `k`, which holds `name=value`. */
  lemma EnvWritesAround(envs: seq<string>, k: nat, name: string, value: string)
    requires k < |envs| && SplitEnv(envs[k]) == Some((name, value))
    ensures EnvWrites(envs) == EnvWrites(envs[..k]) + [Write(EnvPath(name), Str(value))] + EnvWrites(envs[k + 1..])
  {
    var e, a, b := envs[k], envs[..k], envs[k + 1..];
    AroundIndex(envs, k);
    calc {
      EnvWrites(envs);
      EnvWrites(a + [e] + b);
      { EnvWritesAppend(a + [e], b); }
      EnvWrites(a + [e]) + EnvWrites(b);
      { EnvWritesAppend(a, [e]); }
      EnvWrites(a) + EnvWrites([e]) + EnvWrites(b);
      { EnvWritesSingle(e, name, value); }
      EnvWrites(a) + [Write(EnvPath(name), Str(value))] + EnvWrites(b);
    }
  }

  lemma ConcatAround<T>(a: seq<T>, x: T, b: seq<T>, t: seq<T>)
    ensures (a + [x] + b) + t == a + [x] + (b + t)
  {
  }

  lemma AroundIndex<T>(s: seq<T>, k: nat)
    requires k < |s|
    ensures s == s[..k] + [s[k]] + s[k + 1..]
  {
  }

  lemma EnvWritesSingle(e: string, name: string, value: string)
    requires SplitEnv(e) == Some((name, value))
    ensures EnvWrites([e]) == [Write(EnvPath(name), Str(value))]
  {
    assert [e][..0] == [];
    assert EnvWrites([e]) == EnvWrites([]) + EnvWrite(e);
  }

  /**
   * A non-map value in the file survives loading when no environment entry
   * and no flag writes at its path or above it.
   */
  lemma FileValueKept(file: Object, envs: seq<string>, flags: seq<Flag>, p: seq<string>, v: Value)
    requires SearchMap(file, p) == Some(v) && !v.StringMap?
    requires forall w :: w in EnvWrites(envs) + FlagWrites(flags) ==> !IsPrefix(w.path, p)
    ensures SearchMap(Bound(file, envs, flags), p) == Some(v)
  {
    WritesKeepLeaf(file, EnvWrites(envs) + FlagWrites(flags), p, v);
  }

  /** The path both `HELLO_KEY<d>` and `hello-key<d>` name, and the one `hello.key<d>` queries. */
  lemma HelloKeyPaths(d: char)
    requires '0' <= d <= '9'
    ensures EnvPath("HELLO_KEY" + [d]) == ["hello", "key" + [d]]
    ensures FlagPath("hello-key" + [d]) == ["hello", "key" + [d]]
    ensures forall obj :: Get(obj, "hello.key" + [d], KEY_DELIM) == SearchMap(obj, ["hello", "key" + [d]])
  {
    var parts := ["hello", "key" + [d]];
    assert ToLower("HELLO_KEY" + [d]) == Join(parts, ENV_DELIM);
    SplitJoin(parts, ENV_DELIM);
    assert ToLower("hello-key" + [d]) == Join(parts, FLAG_DELIM);
    SplitJoin(parts, FLAG_DELIM);
    forall obj | true ensures Get(obj, "hello.key" + [d], KEY_DELIM) == SearchMap(obj, parts) {
      assert "hello.key" + [d] == Join(parts, KEY_DELIM);
      GetJoinedSegments(obj, parts, KEY_DELIM);
    }
  }

  /**
   * `HELLO_KEY<d>=<value>` in the environment and no flag, over a file without
   * `hello`: `hello.key<d>` reads the string `<value>` (as `HELLO_KEY1=1000`).
   */
  lemma EnvOnlyExample(file: Object, d: char, value: string)
    requires '0' <= d <= '9' && "hello" !in file
    ensures Get(Bound(file, ["HELLO_KEY" + [d] + "=" + value], []), "hello.key" + [d], KEY_DELIM) == Some(Str(value))
  {
    var name := "HELLO_KEY" + [d];
    var envs := [name + "=" + value];
    SplitEnvJoined(name, value);
    HelloKeyPaths(d);
    assert envs[..0] == [] && envs[1..] == [];
    EnvWins(file, envs, [], 0, name, value);
  }

  /**
   * `HELLO_KEY<d>=<value>` in the environment and the flag `hello-key<d>` with
   * `<flag>`: the flag wins (as `HELLO_KEY2=2000` against `hello-key2=102`).
   */
  lemma FlagOverEnvExample(file: Object, d: char, value: string, flag: string)
    requires '0' <= d <= '9' && "hello" !in file
    ensures Get(Bound(file, ["HELLO_KEY" + [d] + "=" + value], [Flag("hello-key" + [d], flag)]), "hello.key" + [d], KEY_DELIM)
         == Some(Str(flag))
  {
    var name := "HELLO_KEY" + [d];
    var envs, flags := [name + "=" + value], [Flag("hello-key" + [d], flag)];
    SplitEnvJoined(name, value);
    HelloKeyPaths(d);
    EnvWritesSingle(envs[0], name, value);
    assert flags[..0] == [] && flags[1..] == [];
    FlagWins(file, envs, flags, 0);
  }
}
