/**
 * Declarations shared by config.go and helper.go: the dynamic values a parsed
 * configuration holds, the package's error values and constants, and the fixed-width
 * Go types the typed accessors return.
 */
module Types {

  /**
   * A Go `any` stored in a configuration tree. Floats and date-times from the
   * TOML file are not given constructors of their own: the tree walkers treat
   * every non-map value alike, as they treat `Int`.
   */
  datatype Value =
    | Str(s: string)
    | Int(i: int)
    | Bool(b: bool)
    | List(items: seq<Value>)
      /** `map[string]any`: descended into by reads and by writes */
    | StringMap(entries: map<string, Value>)
      /** `map[any]any`, its keys as `cast.ToStringMap` renders them: descended into by reads only */
    | AnyKeyMap(entries: map<string, Value>)

  /** `Object = map[string]any`, the root of a configuration tree. */
  type Object = map<string, Value>

  /** The errors the core can return. */
  datatype Error =
    | NoCandidates
    | KeyNotFound
      /** `os.ReadFile` failed on a candidate that `os.Stat` accepted */
    | ReadFailed(path: string)
      /** the TOML parser rejected the file */
    | ParseFailed(message: string)

  const ENV_DELIM: char := '_'
  const FLAG_DELIM: char := '-'
  const KEY_DELIM: char := '.'
  const DEFAULT_FILE: string := "config.toml"

  newtype byte = x: int | 0 <= x < 0x100

  newtype int8 = x: int | -0x80 <= x < 0x80
  newtype int16 = x: int | -0x8000 <= x < 0x8000
  newtype int32 = x: int | -0x8000_0000 <= x < 0x8000_0000
  newtype int64 = x: int | -0x8000_0000_0000_0000 <= x < 0x8000_0000_0000_0000
  newtype uint8 = x: int | 0 <= x < 0x100
  newtype uint16 = x: int | 0 <= x < 0x1_0000
  newtype uint32 = x: int | 0 <= x < 0x1_0000_0000
  newtype uint64 = x: int | 0 <= x < 0x1_0000_0000_0000_0000

  /** `time.Duration`: a signed 64-bit count of nanoseconds. */
  newtype Duration = x: int | -0x8000_0000_0000_0000 <= x < 0x8000_0000_0000_0000

  /** `time.Time`, reduced to an instant in nanoseconds since the Unix epoch. */
  datatype Time = Time(unixNanos: int)
}
