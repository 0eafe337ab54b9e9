# config: a verified model of a configuration-access layer

This project models the core of a small Go configuration package. The package
loads a TOML file into a tree of nested maps, overlays environment variables
and then command-line flags onto the tree, and answers typed queries such as
`GetInt("database.port")`.

The core is a path-addressed engine over nested maps:

- `SearchMap` and `Get` resolve a lower-cased, delimiter-split key. A read fails closed: the answer is `nil`.
- `SetMap` writes at a path. It creates missing intermediate maps, and it silently drops the write when an existing value that is not a `map[string]any` is in the way.
- `BindEnv` and `BindFlag` turn `NAME=VALUE` environment entries and flags into `SetMap` calls. Env names are split on `_`, flag names on `-`.
- `OpenCandidate` picks the configuration file.

Around the engine:

- `Load` fixes the overlay order: file, then environment, then flags. The last write wins.
- Every typed accessor is "look up, then cast with a default". `_cast` decides the fallback: on a conversion error, use the first default if one was given.

Modules, one per source file plus two for shared definitions:

- `Types` (types.dfy): the dynamic values, errors and constants that config.go and helper.go share. Go's `any` is the datatype `Value`. A `map[string]any` and a `map[any]any` are two different constructors: reads descend into both, writes only into the first.
- `Text` (text.dfy): the `strings` functions the engine relies on.
- `Helper` (helper.dfy): helper.go.
  - Reads and `SetMap` are functions on map values.
  - The map that `BindEnv` and `BindFlag` update in place is a `Tree` object. The two binders are loops over it, specified by `ApplyWrites`: the same `SetMap` calls applied in order.
  - `OpenCandidate` is a loop with an early return, specified by `FirstCandidate`.
- `Cast` (cast.dfy): cast.go. The spf13/cast converters are parameters of type `Converter<T>`, and `None` stands for `nil`.
- `Config` (config.go → config.dfy): the handle, its accessors, `Load`, and the precedence lemmas.
- `Wrappers` (wrappers.dfy): `Option` and `Result`.

Things to know when reading the model:

- The flags are visited by `flag.VisitAll`. That call visits every registered flag, set on the command line or not, so a registered flag's default value also overrides the environment and the file. The precedence lemmas follow the code: "a flag wins" means "a registered flag wins", not "a flag that was set wins".
- Whether an absent key gives the caller's default depends on the converter. The converter receives `nil`, and `_cast` falls back only if the converter reports an error. `Config.AbsentKeyGivesDefault` therefore assumes the converter rejects `nil`.

## Model

| member | source | states |
|---|---|---|
| `Helper.SearchMap` | helper.go:11-33 | a value is found only if the first segment is a key of the map: reads fail closed to `nil` |
| `Helper.SearchMapIsResolve` | helper.go:11-33 | for every map and path, `SearchMap` equals the uniform walk `Resolve` (empty path: the map itself; each segment: one step into a map of either kind, `nil` if the key is missing or the value is not a map), so its special case for one-segment paths returns the stored value, scalar or subtree, as is |
| `Helper.ResolveConcat` | helper.go:22-29 | walking `p + q` is walking `p` and then `q` from the value reached |
| `Helper.ThroughNonMapIsAbsent` | helper.go:22-29 | once a path reaches a value that is not a map (scalar, list), every longer path gives `nil`: absence, never an error |
| `Helper.DescendsIntoBothMapKinds` | helper.go:22-26 | a path that reaches a `map[string]any` or a `map[any]any` continues inside that map |
| `Text.ToLower` | helper.go:38 | `strings.ToLower` on ASCII: same length, every letter lowered, no upper-case letter left |
| `Text.Split` | helper.go:39 | `strings.Split`: at least one piece (`""` gives `[""]`), no piece holds the separator, and joining the pieces with it gives the input back |
| `Text.SplitJoin` | helper.go:39 | `Split` inverts `Join` when no part holds the separator |
| `Text.SplitLowerSegments` | helper.go:38-39 | every segment of a lower-cased, split key is lower-case |
| `Helper.Get` | helper.go:37-40 | the public lookup: whatever it finds is reached by walking down from a top-level key that has no upper-case letter and no delimiter; with `GetJoinedSegments` and `GetCaseInsensitive`, a key is read as its lower-cased segments, whatever its case |
| `Helper.GetCaseInsensitive` | helper.go:37-40 | `Get` gives the same answer for a key and its lower-cased form |
| `Helper.GetSearchesLowerSegments` | helper.go:37-40 | every `Get` answer is a search along at least one segment, and no segment at any depth holds an upper-case letter or the delimiter: tree keys with upper-case letters are never reached at any depth |
| `Helper.GetMissesUpperCaseKeys` | helper.go:37-40 | a top-level tree key holding an upper-case letter is never reached by `Get`: removing it changes no answer |
| `Helper.GetEmptyKey` | helper.go:37-40 | the empty query is the one-segment path `[""]`, not the empty path: it looks up the key `""` |
| `Helper.GetJoinedSegments` | helper.go:37-40 | a query made of lower-case, delimiter-free segments joined by the delimiter searches exactly those segments |
| `Helper.SetMap` | helper.go:44-64 | the empty path changes nothing; a write to a blocked path (an existing intermediate that is not a `map[string]any`) changes nothing; otherwise the value is found at the path afterwards (missing intermediates created, a one-segment write overwriting whatever was there); every other top-level key keeps its value and no other key appears |
| `Helper.SetMapLeavesDivergingPaths` | helper.go:54-62 | a write leaves every path that parts ways with its own exactly as it was: sibling keys survive at every depth |
| `Helper.SetMapKeepsLeaf` | helper.go:54-63 | a non-map value at `p` survives a write to any path that is not a prefix of `p` (a write below it is dropped) |
| `Helper.SetMapKeepsWritable` | helper.go:54-62 | a write keeps a writable path writable unless it stores a value on a strict prefix of that path |
| `Helper.ApplyWritesAppend` | helper.go:90-95 | applying two batches of `SetMap` calls in turn is applying their concatenation |
| `Helper.WritesKeepWritable` | helper.go:90-95 | a path stays writable through writes none of which lands on a strict prefix of it |
| `Helper.WritesKeepLeaf` | helper.go:90-95 | a non-map value survives writes none of which lands on its path or a prefix of it |
| `Helper.LastWriteWins` | helper.go:87-109 | after `before`, `w`, `after`, the path of `w` holds its value, when the path was writable, nothing in `before` stored a value above it and nothing in `after` touches it or a prefix of it |
| `Helper.SplitEnv` | helper.go:91 | `strings.SplitN(e, "=", 2)` with two parts: `None` exactly when `e` has no `=`; otherwise a name without `=` and a value such that `e == name + "=" + value`, so the value may hold `=` |
| `Helper.SplitEnvJoined` | helper.go:91 | splitting `name=value` with a name free of `=` gives back that name and value |
| `Helper.EnvWrite` | helper.go:91-94 | one entry asks for at most one write, and for one exactly when it holds an `=` |
| `Helper.EnvWrites` | helper.go:90-95 | the `SetMap` calls of the environment loop: at most one per entry, and an `=`-bearing last entry gives the last write |
| `Helper.EnvWritesSources` | helper.go:90-95 | every entry with an `=` contributes its write, and every write comes from such an entry |
| `Config.EnvWritesAround` | helper.go:90-95 | the writes of the environment split around an entry `name=value`: the writes of the entries before it, then its own write at the lower-cased `name` split on `_`, then the writes of the entries after it |
| `Helper.EnvWritesAppend` | helper.go:90-95 | the writes of two runs of environment entries are the writes of each, in order |
| `Helper.FlagWrites` | helper.go:105-108 | one write per flag, in visiting order: the flag's string value at its lower-cased name split on `-` |
| `Helper.FlagWritesAppend` | helper.go:105-108 | the writes of two runs of flags are the writes of each, in order |
| `Helper.BindEnv` | helper.go:87-96 | the tree afterwards is the tree before with, in order, each `NAME=VALUE` entry's string `VALUE` written at the lower-cased `NAME` split on `_`, entries without `=` skipped |
| `Helper.BindFlag` | helper.go:100-109 | the tree afterwards is the tree before with, in visiting order, each flag's string value written at its lower-cased name split on `-` |
| `Helper.FirstCandidateSpec` | helper.go:68-83 | the result is `ErrNoCandidates` exactly when no candidate exists as a non-directory (including the empty list), and otherwise whatever reading the first such candidate gives |
| `Helper.OpenCandidate` | helper.go:68-83 | the loop with its two `continue`s and its early return computes `FirstCandidate` |
| `Cast.CastWithDefault` | cast.go:9-15 | the value-or-default rule `FallsBack`: a successful conversion's result; on an error the first default if any, else the converter's own (zero) result |
| `Cast.OnlyFirstDefaultCounts` | cast.go:11-12 | defaults after the first never change the result |
| `Cast.SuccessIgnoresDefaults` | cast.go:10-14 | a successful conversion gives the same result with or without defaults |
| `Cast.CastInt` | cast.go:19-21 | `_cast` at `int`: the converter's result, or on its error the first default if any |
| `Cast.CastInt8` | cast.go:25-27 | `_cast` at `int8`: the converter's result, or on its error the first default if any |
| `Cast.CastInt16` | cast.go:31-33 | `_cast` at `int16`: the converter's result, or on its error the first default if any |
| `Cast.CastInt32` | cast.go:37-39 | `_cast` at `int32`: the converter's result, or on its error the first default if any |
| `Cast.CastInt64` | cast.go:43-45 | `_cast` at `int64`: the converter's result, or on its error the first default if any |
| `Cast.CastDuration` | cast.go:49-51 | `_cast` at `time.Duration`: the converter's result, or on its error the first default if any |
| `Cast.CastUint` | cast.go:55-57 | `_cast` at `uint`: the converter's result, or on its error the first default if any |
| `Cast.CastUint8` | cast.go:61-63 | `_cast` at `uint8`: the converter's result, or on its error the first default if any |
| `Cast.CastUint16` | cast.go:67-69 | `_cast` at `uint16`: the converter's result, or on its error the first default if any |
| `Cast.CastUint32` | cast.go:73-75 | `_cast` at `uint32`: the converter's result, or on its error the first default if any |
| `Cast.CastUint64` | cast.go:79-81 | `_cast` at `uint64`: the converter's result, or on its error the first default if any |
| `Cast.CastBool` | cast.go:97-99 | `_cast` at `bool`: the converter's result, or on its error the first default if any |
| `Cast.CastString` | cast.go:103-105 | `_cast` at `string`: the converter's result, or on its error the first default if any |
| `Cast.CastTime` | cast.go:109-111 | `_cast` at `time.Time`: the converter's result, or on its error the first default if any |
| `Cast.CastStringMapString` | cast.go:115-117 | `_cast` at `map[string]string`: the converter's result, or on its error the first default if any |
| `Cast.CastStringMapStringSlice` | cast.go:121-123 | `_cast` at `map[string][]string`: the converter's result, or on its error the first default if any |
| `Cast.CastStringMapBool` | cast.go:127-129 | `_cast` at `map[string]bool`: the converter's result, or on its error the first default if any |
| `Cast.CastStringMap` | cast.go:133-135 | `_cast` at `map[string]any`: the converter's result, or on its error the first default if any |
| `Cast.CastStringMapInt` | cast.go:145-147 | `_cast` at `map[string]int`: the converter's result, or on its error the first default if any |
| `Cast.CastStringMapInt64` | cast.go:151-153 | `_cast` at `map[string]int64`: the converter's result, or on its error the first default if any |
| `Cast.CastSlice` | cast.go:157-159 | `_cast` at `[]any`: the converter's result, or on its error the first default if any |
| `Cast.CastBoolSlice` | cast.go:163-165 | `_cast` at `[]bool`: the converter's result, or on its error the first default if any |
| `Cast.CastStringSlice` | cast.go:169-171 | `_cast` at `[]string`: the converter's result, or on its error the first default if any |
| `Cast.CastIntSlice` | cast.go:175-177 | `_cast` at `[]int`: the converter's result, or on its error the first default if any |
| `Cast.CastDurationSlice` | cast.go:181-183 | `_cast` at `[]time.Duration`: the converter's result, or on its error the first default if any |
| `Cast.CastObject` | cast.go:139-141 | `CastObject` is `CastStringMap` |
| `Config.ConfigGet` | config.go:40-43 | the cast function receives `nil` when the key resolves to nothing, and the key is matched without regard to case |
| `Config.Config.GetBool` | config.go:47-49 | the value-or-default rule applied to what `Get` finds for the key in the handle's tree with the handle's delimiter: total, never an error |
| `Config.Config.GetString` | config.go:53-55 | the value-or-default rule applied to what `Get` finds for the key in the handle's tree with the handle's delimiter: total, never an error |
| `Config.Config.GetDuration` | config.go:59-61 | the value-or-default rule applied to what `Get` finds for the key in the handle's tree with the handle's delimiter: total, never an error |
| `Config.Config.GetInt` | config.go:65-67 | the value-or-default rule applied to what `Get` finds for the key in the handle's tree with the handle's delimiter: total, never an error |
| `Config.Config.GetInt8` | config.go:71-73 | the value-or-default rule applied to what `Get` finds for the key in the handle's tree with the handle's delimiter: total, never an error |
| `Config.Config.GetInt16` | config.go:77-79 | the value-or-default rule applied to what `Get` finds for the key in the handle's tree with the handle's delimiter: total, never an error |
| `Config.Config.GetInt32` | config.go:83-85 | the value-or-default rule applied to what `Get` finds for the key in the handle's tree with the handle's delimiter: total, never an error |
| `Config.Config.GetInt64` | config.go:89-91 | the value-or-default rule applied to what `Get` finds for the key in the handle's tree with the handle's delimiter: total, never an error |
| `Config.Config.GetUint` | config.go:95-97 | the value-or-default rule applied to what `Get` finds for the key in the handle's tree with the handle's delimiter: total, never an error |
| `Config.Config.GetUint8` | config.go:101-103 | the value-or-default rule applied to what `Get` finds for the key in the handle's tree with the handle's delimiter: total, never an error |
| `Config.Config.GetUint16` | config.go:107-109 | the value-or-default rule applied to what `Get` finds for the key in the handle's tree with the handle's delimiter: total, never an error |
| `Config.Config.GetUint32` | config.go:113-115 | the value-or-default rule applied to what `Get` finds for the key in the handle's tree with the handle's delimiter: total, never an error |
| `Config.Config.GetUint64` | config.go:119-121 | the value-or-default rule applied to what `Get` finds for the key in the handle's tree with the handle's delimiter: total, never an error |
| `Config.Config.GetObject` | config.go:137-139 | the value-or-default rule applied to what `Get` finds for the key in the handle's tree with the handle's delimiter: total, never an error |
| `Config.Config.GetTime` | config.go:143-145 | the value-or-default rule applied to what `Get` finds for the key in the handle's tree with the handle's delimiter: total, never an error |
| `Config.Config.GetIntSlice` | config.go:149-151 | the value-or-default rule applied to what `Get` finds for the key in the handle's tree with the handle's delimiter: total, never an error |
| `Config.Config.GetSlice` | config.go:155-157 | the value-or-default rule applied to what `Get` finds for the key in the handle's tree with the handle's delimiter: total, never an error |
| `Config.AbsentKeyGivesDefault` | config.go:40-43 | a key that resolves to nothing gives the first default, whatever follows it, when the converter rejects `nil` |
| `Config.PresentValueConverted` | config.go:40-43 | a value the converter accepts comes back converted and the defaults are ignored |
| `Config.Candidates` | config.go:177-180 | two candidates: `config.toml` first, then `/etc/<lower-cased program name>/config.toml` |
| `Config.BindRequested` | config.go:194 | binding is off exactly when an argument is given and the first is `false` |
| `Config.Load` | config.go:176-208 | an error from choosing the file or from parsing it comes back with no handle; otherwise the handle's tree is the parsed tree, with the environment writes and then the flag writes applied when binding is on and untouched when it is off, and its delimiter is always `.` |
| `Config.FlagWins` | config.go:196-202 | a flag's value ends up at its path over the file, every environment entry and every earlier flag, provided the path is writable in the file (the file holds no value that is not a `map[string]any` on a strict prefix of it), no environment entry or earlier flag stored a value on a strict prefix of it, and no later flag writes at or above it |
| `Config.EnvWins` | config.go:196-202 | an environment entry's value ends up at its path over the file and every earlier entry, provided the path is writable in the file (the file holds no value that is not a `map[string]any` on a strict prefix of it), no earlier entry stored a value on a strict prefix of it, and no later entry and no flag writes at or above it |
| `Config.FileValueKept` | config.go:196-202 | a non-map value from the file survives when no environment entry and no flag writes at or above its path |
| `Config.EnvOnlyExample` | config.go:196-202 | `HELLO_KEY<d>=<v>` with no flag, over a file without `hello`: `hello.key<d>` holds the string `<v>` |
| `Config.FlagOverEnvExample` | config.go:196-202 | `HELLO_KEY<d>=<v>` and the flag `hello-key<d>` with `<f>`: `hello.key<d>` holds `<f>` |

## Left out

- TOML parsing (`toml.Unmarshal`): a foreign library. `Load` takes the parser as a parameter.
- Process I/O: `os.Environ`, `flag.Parse`, `flag.VisitAll`, `os.Stat`, `os.ReadFile` and `os.Args`. They become parameters.
  - The environment is a list of entries.
  - The flags are a list of (name, string value) pairs in the order `flag.VisitAll` gives them, which is lexicographic by name.
  - The file system is a map from the paths that exist to a directory, a readable file or an unreadable file. A path missing from the map is one where `os.Stat` fails.
- `flag.Parse`: parsing the command line is not modelled. The flag list is taken as it stands after parsing.
- spf13/cast conversion semantics (number, bool, duration and time parsing; slice and map coercion): a foreign library. Each `ToXE` function is an uninterpreted `Converter<T>` parameter.
- `cast.ToStringMap` on a `map[any]any`: its keys are turned into strings by `cast.ToString`, and a key of a type that function does not handle becomes `""`. The model stores such a map with keys that are already strings, so collisions between keys that turn into the same string are not modelled.
- `CastFloat32`, `CastFloat64`, `GetFloat32`, `GetFloat64`: floating point.
- TOML floats and date-times have no constructor of their own in `Value`. The tree walkers treat every non-map value alike, as they treat `Int`.
- `StringToDate` and `StringToDateInDefaultLocation`: thin wrappers over a foreign library.
- `Unmarshal`: it is a JSON marshal/unmarshal round trip through a foreign library, and its `nil` check depends on what `cast.ToStringMapE` does with `nil`.
- Unicode case mapping: `strings.ToLower` is modelled on ASCII letters only.
- Delimiters are single characters. `Get` accepts any delimiter string, but every delimiter the package uses (`.`, `_`, `-`) is one character. Empty and multi-character delimiters are not modelled.
- `Config.Candidates`: the second candidate is the plain concatenation `/etc/` + lower-cased program name + `/config.toml`, without the cleaning `filepath.Join` does. When `os.Args[0]` is an absolute path such as `/usr/bin/app`, Go reads `/etc/usr/bin/app/config.toml` but the model reads `/etc//usr/bin/app/config.toml`. When it is `./app`, Go reads `/etc/app/config.toml` but the model reads `/etc/./app/config.toml`. In both cases the model looks up a different key of the `FileSystem` map. Cleaning of `..` and of repeated slashes is not modelled either.
- Go's `int` and `uint` are taken as 64 bits wide (`int64`, `uint64`). `time.Time` is reduced to an instant in nanoseconds.
- Aliasing: nested maps are values. In Go, `SetMap` updates nested maps in place, and a fresh intermediate map is shared between the parent entry and the recursive call. A parsed TOML tree shares no sub-maps, so values give the same observable tree. A tree whose sub-maps are shared by several parents is not modelled.
- `os.Stat` failing on a path that exists (for example, a permission error on a parent directory) is not distinguished from a missing path.
- config_test.go: it calls an API (`_config`, `Get`, a two-argument `GetObject`) that config.go does not define, and it only logs. No property is drawn from it.
