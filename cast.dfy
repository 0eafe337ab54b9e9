/**
 * cast.go: every typed conversion is `_cast` applied to one converter of the
 * spf13/cast library, so that a conversion never fails: on an error the first
 * default is used when the caller gave one, and otherwise the converter's own
 * (zero) result.
 */
module Cast {
  import opened Wrappers
  import opened Types

  /** What a spf13/cast `ToXE` function returns: a result and, on failure, an error message. */
  datatype Conversion<T> = Conversion(result: T, err: Option<string>)

  /** A spf13/cast `ToXE` function; `None` stands for a `nil` argument. */
  type Converter<T> = Option<Value> -> Conversion<T>

  /**
   * The value-or-default rule: a successful conversion gives its result; a
   * failed one gives the first default if there is one, else the converter's
   * own result.
   */
  ghost predicate FallsBack<T>(c: Conversion<T>, def: seq<T>, r: T) {
    && (c.err.None? ==> r == c.result)
    && (c.err.Some? && |def| > 0 ==> r == def[0])
    && (c.err.Some? && |def| == 0 ==> r == c.result)
  }

  /** `_cast(fn, val, def...)`. */
  function CastWithDefault<T>(fn: Converter<T>, val: Option<Value>, def: seq<T>): (r: T)
    ensures FallsBack(fn(val), def, r)
  {
    var c := fn(val);
    if c.err.Some? && |def| > 0 then def[0] else c.result
  }

  /** Defaults after the first are never consulted. */
  lemma OnlyFirstDefaultCounts<T>(fn: Converter<T>, val: Option<Value>, d: T, rest: seq<T>)
    ensures CastWithDefault(fn, val, [d] + rest) == CastWithDefault(fn, val, [d])
  {
  }

  /** A successful conversion ignores the defaults. */
  lemma SuccessIgnoresDefaults<T>(fn: Converter<T>, val: Option<Value>, def: seq<T>)
    requires fn(val).err.None?
    ensures CastWithDefault(fn, val, def) == CastWithDefault(fn, val, [])
  {
  }

  function CastInt(toIntE: Converter<int64>, val: Option<Value>, def: seq<int64>): (r: int64)
    ensures FallsBack(toIntE(val), def, r)
  {
    CastWithDefault(toIntE, val, def)
  }

  function CastInt8(toInt8E: Converter<int8>, val: Option<Value>, def: seq<int8>): (r: int8)
    ensures FallsBack(toInt8E(val), def, r)
  {
    CastWithDefault(toInt8E, val, def)
  }

  function CastInt16(toInt16E: Converter<int16>, val: Option<Value>, def: seq<int16>): (r: int16)
    ensures FallsBack(toInt16E(val), def, r)
  {
    CastWithDefault(toInt16E, val, def)
  }

  function CastInt32(toInt32E: Converter<int32>, val: Option<Value>, def: seq<int32>): (r: int32)
    ensures FallsBack(toInt32E(val), def, r)
  {
    CastWithDefault(toInt32E, val, def)
  }

  function CastInt64(toInt64E: Converter<int64>, val: Option<Value>, def: seq<int64>): (r: int64)
    ensures FallsBack(toInt64E(val), def, r)
  {
    CastWithDefault(toInt64E, val, def)
  }

  function CastDuration(toDurationE: Converter<Duration>, val: Option<Value>, def: seq<Duration>): (r: Duration)
    ensures FallsBack(toDurationE(val), def, r)
  {
    CastWithDefault(toDurationE, val, def)
  }

  function CastUint(toUintE: Converter<uint64>, val: Option<Value>, def: seq<uint64>): (r: uint64)
    ensures FallsBack(toUintE(val), def, r)
  {
    CastWithDefault(toUintE, val, def)
  }

  function CastUint8(toUint8E: Converter<uint8>, val: Option<Value>, def: seq<uint8>): (r: uint8)
    ensures FallsBack(toUint8E(val), def, r)
  {
    CastWithDefault(toUint8E, val, def)
  }

  function CastUint16(toUint16E: Converter<uint16>, val: Option<Value>, def: seq<uint16>): (r: uint16)
    ensures FallsBack(toUint16E(val), def, r)
  {
    CastWithDefault(toUint16E, val, def)
  }

  function CastUint32(toUint32E: Converter<uint32>, val: Option<Value>, def: seq<uint32>): (r: uint32)
    ensures FallsBack(toUint32E(val), def, r)
  {
    CastWithDefault(toUint32E, val, def)
  }

  function CastUint64(toUint64E: Converter<uint64>, val: Option<Value>, def: seq<uint64>): (r: uint64)
    ensures FallsBack(toUint64E(val), def, r)
  {
    CastWithDefault(toUint64E, val, def)
  }

  function CastBool(toBoolE: Converter<bool>, val: Option<Value>, def: seq<bool>): (r: bool)
    ensures FallsBack(toBoolE(val), def, r)
  {
    CastWithDefault(toBoolE, val, def)
  }

  function CastString(toStringE: Converter<string>, val: Option<Value>, def: seq<string>): (r: string)
    ensures FallsBack(toStringE(val), def, r)
  {
    CastWithDefault(toStringE, val, def)
  }

  function CastTime(toTimeE: Converter<Time>, val: Option<Value>, def: seq<Time>): (r: Time)
    ensures FallsBack(toTimeE(val), def, r)
  {
    CastWithDefault(toTimeE, val, def)
  }

  function CastStringMapString(toStringMapStringE: Converter<map<string, string>>, val: Option<Value>, def: seq<map<string, string>>): (r: map<string, string>)
    ensures FallsBack(toStringMapStringE(val), def, r)
  {
    CastWithDefault(toStringMapStringE, val, def)
  }

  function CastStringMapStringSlice(toStringMapStringSliceE: Converter<map<string, seq<string>>>, val: Option<Value>, def: seq<map<string, seq<string>>>): (r: map<string, seq<string>>)
    ensures FallsBack(toStringMapStringSliceE(val), def, r)
  {
    CastWithDefault(toStringMapStringSliceE, val, def)
  }

  function CastStringMapBool(toStringMapBoolE: Converter<map<string, bool>>, val: Option<Value>, def: seq<map<string, bool>>): (r: map<string, bool>)
    ensures FallsBack(toStringMapBoolE(val), def, r)
  {
    CastWithDefault(toStringMapBoolE, val, def)
  }

  function CastStringMap(toStringMapE: Converter<Object>, val: Option<Value>, def: seq<Object>): (r: Object)
    ensures FallsBack(toStringMapE(val), def, r)
  {
    CastWithDefault(toStringMapE, val, def)
  }

  /** `CastObject` is `CastStringMap` under the name of the `Object` alias. */
  function CastObject(toStringMapE: Converter<Object>, val: Option<Value>, def: seq<Object>): (r: Object)
    ensures r == CastStringMap(toStringMapE, val, def)
  {
    CastStringMap(toStringMapE, val, def)
  }

  function CastStringMapInt(toStringMapIntE: Converter<map<string, int64>>, val: Option<Value>, def: seq<map<string, int64>>): (r: map<string, int64>)
    ensures FallsBack(toStringMapIntE(val), def, r)
  {
    CastWithDefault(toStringMapIntE, val, def)
  }

  function CastStringMapInt64(toStringMapInt64E: Converter<map<string, int64>>, val: Option<Value>, def: seq<map<string, int64>>): (r: map<string, int64>)
    ensures FallsBack(toStringMapInt64E(val), def, r)
  {
    CastWithDefault(toStringMapInt64E, val, def)
  }

  function CastSlice(toSliceE: Converter<seq<Value>>, val: Option<Value>, def: seq<seq<Value>>): (r: seq<Value>)
    ensures FallsBack(toSliceE(val), def, r)
  {
    CastWithDefault(toSliceE, val, def)
  }

  function CastBoolSlice(toBoolSliceE: Converter<seq<bool>>, val: Option<Value>, def: seq<seq<bool>>): (r: seq<bool>)
    ensures FallsBack(toBoolSliceE(val), def, r)
  {
    CastWithDefault(toBoolSliceE, val, def)
  }

  function CastStringSlice(toStringSliceE: Converter<seq<string>>, val: Option<Value>, def: seq<seq<string>>): (r: seq<string>)
    ensures FallsBack(toStringSliceE(val), def, r)
  {
    CastWithDefault(toStringSliceE, val, def)
  }

  function CastIntSlice(toIntSliceE: Converter<seq<int64>>, val: Option<Value>, def: seq<seq<int64>>): (r: seq<int64>)
    ensures FallsBack(toIntSliceE(val), def, r)
  {
    CastWithDefault(toIntSliceE, val, def)
  }

  function CastDurationSlice(toDurationSliceE: Converter<seq<Duration>>, val: Option<Value>, def: seq<seq<Duration>>): (r: seq<Duration>)
    ensures FallsBack(toDurationSliceE(val), def, r)
  {
    CastWithDefault(toDurationSliceE, val, def)
  }
}
