/**
 * helper.go: the path-addressed engine over nested maps. Reads (`SearchMap`,
 * `Get`) fail closed to `nil`; writes (`SetMap`) create missing intermediate
 * maps and give up silently when an existing non-`map[string]any` value is in
 * the way. `BindEnv` and `BindFlag` turn environment entries and flags into
 * writes on a map held by reference; `OpenCandidate` picks the configuration
 * file.
 */
module Helper {
  import opened Wrappers
  import opened Types
  import opened Text

  /** The entries of a map value of either Go map kind; `None` for anything else. */
  function Children(v: Value): Option<Object> {
    match v
    case StringMap(m) => Some(m)
    case AnyKeyMap(m) => Some(m)
    case _ => None
  }

  // ---------------------------------------------------------------------------
  // Reading

  /**
   * `SearchMap(obj, path)`. The empty path gives `obj` itself. Otherwise a
   * missing first segment gives `nil`, a one-segment path gives what is stored,
   * and a longer path descends into a `map[string]any` or (through
   * `cast.ToStringMap`) a `map[any]any`, and gives `nil` through anything else.
   */
  function SearchMap(obj: Object, path: seq<string>): (r: Option<Value>)
    ensures |path| > 0 && r.Some? ==> path[0] in obj
    decreases |path|
  {
    if |path| == 0 then Some(StringMap(obj))
    else if path[0] !in obj then None
    else if |path| == 1 then Some(obj[path[0]])
    else match obj[path[0]]
      case StringMap(m) => SearchMap(m, path[1..])
      case AnyKeyMap(m) => SearchMap(m, path[1..])
      case _ => None
  }

  /** The uniform walk over values that `SearchMap` implements: one map step per segment. */
  function Resolve(v: Value, path: seq<string>): Option<Value>
    decreases |path|
  {
    if |path| == 0 then Some(v)
    else match Children(v)
      case None => None
      case Some(m) => if path[0] in m then Resolve(m[path[0]], path[1..]) else None
  }

  /** `SearchMap`'s special case for one-segment paths agrees with the uniform walk. */
  lemma {:induction false} SearchMapIsResolve(obj: Object, path: seq<string>)
    ensures SearchMap(obj, path) == Resolve(StringMap(obj), path)
    decreases |path|
  {
    if |path| > 1 && path[0] in obj {
      match obj[path[0]]
      case StringMap(m) => SearchMapIsResolve(m, path[1..]);
      case AnyKeyMap(m) => SearchMapIsResolve(m, path[1..]);
      case _ =>
    }
  }

  /** Walking `p + q` is walking `p`, then `q` from where `p` ended. */
  lemma {:induction false} ResolveConcat(v: Value, p: seq<string>, q: seq<string>)
    ensures Resolve(v, p + q) == match Resolve(v, p) case None => None case Some(w) => Resolve(w, q)
    decreases |p|
  {
    if p == [] {
      assert p + q == q;
    } else {
      assert (p + q)[1..] == p[1..] + q;
      match Children(v)
      case None =>
      case Some(m) =>
        if p[0] in m {
          ResolveConcat(m[p[0]], p[1..], q);
        }
    }
  }

  /** Once a path reaches a value that is not a map, every longer path is `nil`. */
  lemma ThroughNonMapIsAbsent(obj: Object, p: seq<string>, q: seq<string>, v: Value)
    requires SearchMap(obj, p) == Some(v) && Children(v).None?
    requires |q| > 0
    ensures SearchMap(obj, p + q) == None
  {
    SearchMapIsResolve(obj, p);
    SearchMapIsResolve(obj, p + q);
    ResolveConcat(StringMap(obj), p, q);
  }

  /** A path that reaches a map of either kind continues inside that map. */
  lemma DescendsIntoBothMapKinds(obj: Object, p: seq<string>, q: seq<string>, v: Value, m: Object)
    requires SearchMap(obj, p) == Some(v) && Children(v) == Some(m)
    requires |q| > 0
    ensures SearchMap(obj, p + q) == SearchMap(m, q)
  {
    SearchMapIsResolve(obj, p);
    SearchMapIsResolve(obj, p + q);
    SearchMapIsResolve(m, q);
    ResolveConcat(StringMap(obj), p, q);
  }

  /**
   * `Get(obj, path, delim)`: lower-case the key, split it on `delim`, search.
   * Whatever it finds is reached from a top-level key with no upper-case
   * letter and no delimiter in it.
   */
  function Get(obj: Object, path: string, delim: char): (r: Option<Value>)
    ensures r.Some? ==> exists k, q :: k in obj && !HasUpper(k) && delim !in k && Resolve(obj[k], q) == r
  {
    var segs := Split(ToLower(path), delim);
    SplitLowerSegments(path, delim);
    SearchMapIsResolve(obj, segs);
    SearchMap(obj, segs)
  }

  /** Every segment `Get` searches, at every depth, is lower-case and free of the delimiter. */
  lemma GetSearchesLowerSegments(obj: Object, path: string, delim: char)
    ensures exists segs ::
      && |segs| >= 1
      && Get(obj, path, delim) == SearchMap(obj, segs)
      && (forall i :: 0 <= i < |segs| ==> !HasUpper(segs[i]) && delim !in segs[i])
  {
    var segs := Split(ToLower(path), delim);
    SplitLowerSegments(path, delim);
    assert Get(obj, path, delim) == SearchMap(obj, segs);
  }

  /** Only the query is lower-cased, so keys differing in case are the same query. */
  lemma GetCaseInsensitive(obj: Object, path: string, delim: char)
    ensures Get(obj, path, delim) == Get(obj, ToLower(path), delim)
  {
    ToLowerIdempotent(path);
  }

  /** A top-level key with an upper-case letter is invisible to `Get`. */
  lemma GetMissesUpperCaseKeys(obj: Object, k: string, path: string, delim: char)
    requires k in obj && HasUpper(k)
    ensures Get(obj, path, delim) == Get(obj - {k}, path, delim)
  {
    var segs := Split(ToLower(path), delim);
    SplitLowerSegments(path, delim);
    assert segs[0] != k;
    SearchMapSameHead(obj, obj - {k}, segs);
  }

  /** The empty key is not the empty path: it looks up the key `""`. */
  lemma GetEmptyKey(obj: Object, delim: char)
    ensures Get(obj, "", delim) == if "" in obj then Some(obj[""]) else None
  {
  }

  lemma {:induction false} JoinHasNoUpper(parts: seq<string>, sep: char)
    requires |parts| >= 1 && !IsUpper(sep)
    requires forall i :: 0 <= i < |parts| ==> !HasUpper(parts[i])
    ensures !HasUpper(Join(parts, sep))
    decreases |parts|
  {
    if |parts| > 1 {
      JoinHasNoUpper(parts[1..], sep);
      var s := Join(parts, sep);
      var rest := Join(parts[1..], sep);
      assert s == parts[0] + [sep] + rest;
      forall k | 0 <= k < |s| ensures !IsUpper(s[k]) {
        if k < |parts[0]| {
          assert s[k] == parts[0][k];
        } else if k > |parts[0]| {
          assert s[k] == rest[k - |parts[0]| - 1];
        }
      }
    }
  }

  /** A key written as lower-case segments joined by `delim` finds exactly those segments. */
  lemma GetJoinedSegments(obj: Object, parts: seq<string>, delim: char)
    requires |parts| >= 1 && !IsUpper(delim)
    requires forall i :: 0 <= i < |parts| ==> delim !in parts[i] && !HasUpper(parts[i])
    ensures Get(obj, Join(parts, delim), delim) == SearchMap(obj, parts)
  {
    JoinHasNoUpper(parts, delim);
    ToLowerKeepsLowerCase(Join(parts, delim));
    SplitJoin(parts, delim);
  }

  /** `SearchMap` looks at nothing but the entry under the first segment. */
  lemma SearchMapSameHead(a: Object, b: Object, path: seq<string>)
    requires |path| > 0
    requires path[0] in a <==> path[0] in b
    requires path[0] in a ==> a[path[0]] == b[path[0]]
    ensures SearchMap(a, path) == SearchMap(b, path)
  {
  }

  // ---------------------------------------------------------------------------
  // Writing

  /**
   * True when `SetMap(obj, path, _)` takes effect: every strict prefix of `path`
   * is either missing or a `map[string]any` (whose own prefixes then obey the same).
   */
  predicate Writable(obj: Object, path: seq<string>)
    decreases |path|
  {
    |path| <= 1 || path[0] !in obj ||
    (obj[path[0]].StringMap? && Writable(obj[path[0]].entries, path[1..]))
  }

  /**
   * `SetMap(obj, path, value)`, with the Go map's update in place rendered as
   * the updated map. A missing intermediate segment gets a fresh
   * `map[string]any`; an intermediate that is anything else drops the write.
   */
  function SetMap(obj: Object, path: seq<string>, value: Value): (r: Object)
    ensures |path| == 0 ==> r == obj
    ensures forall k :: k in obj && (|path| == 0 || k != path[0]) ==> k in r && r[k] == obj[k]
    ensures forall k :: k in r ==> k in obj || (|path| > 0 && k == path[0])
    ensures !Writable(obj, path) ==> r == obj
    ensures |path| > 0 && Writable(obj, path) ==> SearchMap(r, path) == Some(value)
    decreases |path|
  {
    if |path| == 0 then obj
    else if |path| == 1 then obj[path[0] := value]
    else
      var next := if path[0] in obj then obj[path[0]] else StringMap(map[]);
      match next
      case StringMap(m) => obj[path[0] := StringMap(SetMap(m, path[1..], value))]
      case _ => obj
  }

  /** `p` and `q` part ways at some segment: neither is a prefix of the other. */
  predicate Diverge(p: seq<string>, q: seq<string>)
    decreases |p|
  {
    |p| > 0 && |q| > 0 && (p[0] != q[0] || Diverge(p[1..], q[1..]))
  }

  predicate IsPrefix(q: seq<string>, p: seq<string>)
    decreases |q|
  {
    |q| == 0 || (|p| > 0 && q[0] == p[0] && IsPrefix(q[1..], p[1..]))
  }

  predicate StrictPrefix(q: seq<string>, p: seq<string>) {
    |q| < |p| && IsPrefix(q, p)
  }

  /** A write leaves every path that parts ways with it as it was: siblings survive. */
  lemma {:induction false} SetMapLeavesDivergingPaths(obj: Object, p: seq<string>, value: Value, q: seq<string>)
    requires Diverge(p, q)
    ensures SearchMap(SetMap(obj, p, value), q) == SearchMap(obj, q)
    decreases |p|
  {
    var r := SetMap(obj, p, value);
    if p[0] != q[0] {
      SearchMapSameHead(r, obj, q);
    } else if p[0] !in obj {
      SetMapLeavesDivergingPaths(map[], p[1..], value, q[1..]);
    } else if obj[p[0]].StringMap? {
      SetMapLeavesDivergingPaths(obj[p[0]].entries, p[1..], value, q[1..]);
    }
  }

  /**
   * A non-map value found at `p` survives a write to any path that is not a
   * prefix of `p`: a diverging write misses it, and a write below it is blocked.
   */
  lemma {:induction false} SetMapKeepsLeaf(obj: Object, q: seq<string>, w: Value, p: seq<string>, v: Value)
    requires SearchMap(obj, p) == Some(v) && !v.StringMap?
    requires !IsPrefix(q, p)
    ensures SearchMap(SetMap(obj, q, w), p) == Some(v)
    decreases |p|
  {
    var r := SetMap(obj, q, w);
    if q[0] != p[0] {
      SearchMapSameHead(r, obj, p);
    } else if |q| > 1 && |p| > 1 && obj[p[0]].StringMap? {
      SetMapKeepsLeaf(obj[p[0]].entries, q[1..], w, p[1..], v);
    }
  }

  /** A write keeps `p` writable unless it lands on a strict prefix of `p`. */
  lemma {:induction false} SetMapKeepsWritable(obj: Object, q: seq<string>, w: Value, p: seq<string>)
    requires Writable(obj, p) && !StrictPrefix(q, p)
    ensures Writable(SetMap(obj, q, w), p)
    decreases |p|
  {
    if |p| > 1 && |q| > 0 {
      var r := SetMap(obj, q, w);
      if q[0] != p[0] {
        assert p[0] in r <==> p[0] in obj;
        assert p[0] in r ==> r[p[0]] == obj[p[0]];
      } else if |q| > 1 {
        var m := if p[0] in obj then obj[p[0]].entries else map[];
        assert Writable(m, p[1..]);
        assert !StrictPrefix(q[1..], p[1..]);
        SetMapKeepsWritable(m, q[1..], w, p[1..]);
        assert r == obj[p[0] := StringMap(SetMap(m, q[1..], w))];
        assert r[p[0]].entries == SetMap(m, q[1..], w);
      } else {
        assert IsPrefix(q[1..], p[1..]);
      }
    }
  }

  /** One write of `value` at `path`. */
  datatype Write = Write(path: seq<string>, value: Value)

  /** The tree after the writes `ws`, applied in order, each through `SetMap`. */
  function ApplyWrites(obj: Object, ws: seq<Write>): Object
    decreases |ws|
  {
    if ws == [] then obj
    else
      var last := ws[|ws| - 1];
      SetMap(ApplyWrites(obj, ws[..|ws| - 1]), last.path, last.value)
  }

  lemma {:induction false} ApplyWritesAppend(obj: Object, a: seq<Write>, b: seq<Write>)
    ensures ApplyWrites(obj, a + b) == ApplyWrites(ApplyWrites(obj, a), b)
    decreases |b|
  {
    if b == [] {
      assert a + b == a;
    } else {
      assert (a + b)[..|a + b| - 1] == a + b[..|b| - 1];
      ApplyWritesAppend(obj, a, b[..|b| - 1]);
    }
  }

  lemma {:induction false} WritesKeepWritable(obj: Object, ws: seq<Write>, p: seq<string>)
    requires Writable(obj, p)
    requires forall w :: w in ws ==> !StrictPrefix(w.path, p)
    ensures Writable(ApplyWrites(obj, ws), p)
    decreases |ws|
  {
    if ws != [] {
      var init := ws[..|ws| - 1];
      WritesKeepWritable(obj, init, p);
      SetMapKeepsWritable(ApplyWrites(obj, init), ws[|ws| - 1].path, ws[|ws| - 1].value, p);
    }
  }

  /** A non-map value survives every write whose path is not a prefix of its own. */
  lemma {:induction false} WritesKeepLeaf(obj: Object, ws: seq<Write>, p: seq<string>, v: Value)
    requires SearchMap(obj, p) == Some(v) && !v.StringMap?
    requires forall w :: w in ws ==> !IsPrefix(w.path, p)
    ensures SearchMap(ApplyWrites(obj, ws), p) == Some(v)
    decreases |ws|
  {
    if ws != [] {
      var init := ws[..|ws| - 1];
      WritesKeepLeaf(obj, init, p, v);
      SetMapKeepsLeaf(ApplyWrites(obj, init), ws[|ws| - 1].path, ws[|ws| - 1].value, p, v);
    }
  }

  /**
   * The last write wins: after `before`, then `w`, then `after`, the path of `w`
   * holds its value, provided the path was writable to begin with, no write in
   * `before` put a value on a strict prefix of it (which would block `w`), and
   * no write in `after` touches it or a prefix of it.
   */
  lemma LastWriteWins(obj: Object, before: seq<Write>, w: Write, after: seq<Write>)
    requires |w.path| > 0 && !w.value.StringMap?
    requires Writable(obj, w.path)
    requires forall x :: x in before ==> !StrictPrefix(x.path, w.path)
    requires forall x :: x in after ==> !IsPrefix(x.path, w.path)
    ensures SearchMap(ApplyWrites(obj, before + [w] + after), w.path) == Some(w.value)
  {
    ApplyWritesAppend(obj, before + [w], after);
    assert (before + [w])[..|before|] == before;
    WritesKeepWritable(obj, before, w.path);
    WritesKeepLeaf(ApplyWrites(obj, before + [w]), after, w.path, w.value);
  }

  // ---------------------------------------------------------------------------
  // Binding the environment and the flags

  /**
   * `strings.SplitN(entry, "=", 2)` when it yields two parts: the name before
   * the first `=` and everything after it; `None` when there is no `=`.
   */
  function SplitEnv(entry: string): (r: Option<(string, string)>)
    ensures r.None? <==> '=' !in entry
    ensures r.Some? ==> '=' !in r.value.0 && entry == r.value.0 + "=" + r.value.1
    decreases |entry|
  {
    if |entry| == 0 then None
    else if entry[0] == '=' then Some(("", entry[1..]))
    else match SplitEnv(entry[1..])
      case None => None
      case Some((name, value)) => Some(([entry[0]] + name, value))
  }

  /** `SplitEnv` undoes writing `name=value` when the name holds no `=`. */
  lemma {:induction false} SplitEnvJoined(name: string, value: string)
    requires '=' !in name
    ensures SplitEnv(name + "=" + value) == Some((name, value))
    decreases |name|
  {
    var entry := name + "=" + value;
    if |name| == 0 {
      assert entry[1..] == value;
    } else {
      assert entry[1..] == name[1..] + "=" + value;
      SplitEnvJoined(name[1..], value);
      assert [name[0]] + name[1..] == name;
    }
  }

  function EnvPath(name: string): seq<string> {
    Split(ToLower(name), ENV_DELIM)
  }

  function FlagPath(name: string): seq<string> {
    Split(ToLower(name), FLAG_DELIM)
  }

  /** The write one environment entry asks for: none when it has no `=`. */
  function EnvWrite(entry: string): (ws: seq<Write>)
    ensures |ws| <= 1
    ensures |ws| == 1 <==> '=' in entry
  {
    match SplitEnv(entry)
    case None => []
    case Some((name, value)) => [Write(EnvPath(name), Str(value))]
  }

  /**
   * The writes of the environment entries, in order: at most one per entry,
   * and an `=`-bearing last entry gives the last write.
   */
  function EnvWrites(envs: seq<string>): (ws: seq<Write>)
    ensures |ws| <= |envs|
    ensures |envs| > 0 && '=' in envs[|envs| - 1] ==> |ws| > 0 && [ws[|ws| - 1]] == EnvWrite(envs[|envs| - 1])
    decreases |envs|
  {
    if envs == [] then [] else EnvWrites(envs[..|envs| - 1]) + EnvWrite(envs[|envs| - 1])
  }

  /** Every entry with an `=` contributes its write, and every write comes from such an entry. */
  lemma {:induction false} EnvWritesSources(envs: seq<string>)
    ensures forall e :: e in envs && '=' in e ==> EnvWrite(e)[0] in EnvWrites(envs)
    ensures forall w :: w in EnvWrites(envs) ==> exists e :: e in envs && EnvWrite(e) == [w]
    decreases |envs|
  {
    if envs != [] {
      var init, last := envs[..|envs| - 1], envs[|envs| - 1];
      EnvWritesSources(init);
      assert envs == init + [last];
      forall w | w in EnvWrites(envs) ensures exists e :: e in envs && EnvWrite(e) == [w] {
        if w !in EnvWrites(init) {
          assert EnvWrite(last) == [w];
        }
      }
    }
  }

  lemma {:induction false} EnvWritesAppend(a: seq<string>, b: seq<string>)
    ensures EnvWrites(a + b) == EnvWrites(a) + EnvWrites(b)
    decreases |b|
  {
    if b == [] {
      assert a + b == a;
    } else {
      assert (a + b)[..|a + b| - 1] == a + b[..|b| - 1];
      EnvWritesAppend(a, b[..|b| - 1]);
    }
  }

  lemma ApplyOneWrite(obj: Object, w: Write)
    ensures ApplyWrites(obj, []) == obj
    ensures ApplyWrites(obj, [w]) == SetMap(obj, w.path, w.value)
  {
    assert [w][..0] == [];
  }

  /** A registered flag as `flag.VisitAll` presents it: its name and `Value.String()`. */
  datatype Flag = Flag(name: string, value: string)

  /** The writes of the flags, in visiting order: one per flag. */
  function FlagWrites(flags: seq<Flag>): (ws: seq<Write>)
    ensures |ws| == |flags|
    ensures forall i :: 0 <= i < |flags| ==> ws[i] == Write(FlagPath(flags[i].name), Str(flags[i].value))
  {
    seq(|flags|, i requires 0 <= i < |flags| => Write(FlagPath(flags[i].name), Str(flags[i].value)))
  }

  lemma FlagWritesAppend(a: seq<Flag>, b: seq<Flag>)
    ensures FlagWrites(a + b) == FlagWrites(a) + FlagWrites(b)
  {
  }

  /** A `map[string]any` held by reference, as `BindEnv` and `BindFlag` receive it. */
  class Tree {
    var entries: Object

    constructor (entries: Object)
      ensures this.entries == entries
    {
      this.entries := entries;
    }
  }

  /**
   * `BindEnv`: for each `NAME=VALUE` entry in order, store the string `VALUE` at
   * the lower-cased `NAME` split on `_`; entries without `=` are skipped.
   */
  method BindEnv(obj: Tree, envs: seq<string>)
    modifies obj
    ensures obj.entries == ApplyWrites(old(obj.entries), EnvWrites(envs))
  {
    var i := 0;
    while i < |envs|
      invariant 0 <= i <= |envs|
      invariant obj.entries == ApplyWrites(old(obj.entries), EnvWrites(envs[..i]))
    {
      ghost var done := EnvWrites(envs[..i]);
      assert envs[..i + 1][..i] == envs[..i];
      assert EnvWrites(envs[..i + 1]) == done + EnvWrite(envs[i]);
      ApplyWritesAppend(old(obj.entries), done, EnvWrite(envs[i]));
      var pair := SplitEnv(envs[i]);
      if pair.Some? {
        var key := ToLower(pair.value.0);
        ApplyOneWrite(obj.entries, Write(EnvPath(pair.value.0), Str(pair.value.1)));
        obj.entries := SetMap(obj.entries, Split(key, ENV_DELIM), Str(pair.value.1));
      }
      i := i + 1;
    }
    assert envs[..i] == envs;
  }

  /**
   * `BindFlag` after the flags are parsed: for each flag in visiting order,
   * store its string value at the lower-cased name split on `-`.
   */
  method BindFlag(obj: Tree, flags: seq<Flag>)
    modifies obj
    ensures obj.entries == ApplyWrites(old(obj.entries), FlagWrites(flags))
  {
    var i := 0;
    while i < |flags|
      invariant 0 <= i <= |flags|
      invariant obj.entries == ApplyWrites(old(obj.entries), FlagWrites(flags[..i]))
    {
      assert FlagWrites(flags[..i + 1]) == FlagWrites(flags[..i]) + [FlagWrites(flags)[i]];
      ApplyWritesAppend(old(obj.entries), FlagWrites(flags[..i]), [FlagWrites(flags)[i]]);
      var key := ToLower(flags[i].name);
      obj.entries := SetMap(obj.entries, Split(key, FLAG_DELIM), Str(flags[i].value));
      i := i + 1;
    }
    assert flags[..i] == flags;
  }

  // ---------------------------------------------------------------------------
  // Choosing the configuration file

  /** What `os.Stat` and `os.ReadFile` see at a path that exists. */
  datatype Entry = Directory | Regular(contents: seq<byte>) | Unreadable

  /** The file system, reduced to the paths that exist; a missing path fails `os.Stat`. */
  type FileSystem = map<string, Entry>

  /** True when `os.Stat` succeeds on `path` and it is not a directory. */
  predicate Openable(fs: FileSystem, path: string) {
    path in fs && !fs[path].Directory?
  }

  /** `os.ReadFile(path)`. */
  function ReadFile(fs: FileSystem, path: string): Result<seq<byte>, Error> {
    if path in fs && fs[path].Regular? then Success(fs[path].contents) else Failure(ReadFailed(path))
  }

  /** The outcome of `OpenCandidate`: read the first openable candidate, else `ErrNoCandidates`. */
  function FirstCandidate(fs: FileSystem, candidates: seq<string>): Result<seq<byte>, Error>
    decreases |candidates|
  {
    if candidates == [] then Failure(NoCandidates)
    else if Openable(fs, candidates[0]) then ReadFile(fs, candidates[0])
    else FirstCandidate(fs, candidates[1..])
  }

  predicate IsFirstOpenable(fs: FileSystem, candidates: seq<string>, k: int) {
    0 <= k < |candidates| && Openable(fs, candidates[k]) &&
    forall j :: 0 <= j < k ==> !Openable(fs, candidates[j])
  }

  /**
   * `FirstCandidate` reads the first candidate that exists and is not a
   * directory, whatever that read gives, and it reports `ErrNoCandidates`
   * exactly when there is no such candidate.
   */
  lemma {:induction false} FirstCandidateSpec(fs: FileSystem, candidates: seq<string>)
    ensures FirstCandidate(fs, candidates) == Failure(NoCandidates) <==>
            forall j :: 0 <= j < |candidates| ==> !Openable(fs, candidates[j])
    ensures forall k :: IsFirstOpenable(fs, candidates, k) ==>
            FirstCandidate(fs, candidates) == ReadFile(fs, candidates[k])
    decreases |candidates|
  {
    if candidates != [] {
      var rest := candidates[1..];
      FirstCandidateSpec(fs, rest);
      forall k | IsFirstOpenable(fs, candidates, k)
        ensures FirstCandidate(fs, candidates) == ReadFile(fs, candidates[k])
      {
        if k > 0 {
          assert IsFirstOpenable(fs, rest, k - 1);
        }
      }
      if !Openable(fs, candidates[0]) {
        assert (forall j :: 0 <= j < |candidates| ==> !Openable(fs, candidates[j])) <==>
               (forall j :: 0 <= j < |rest| ==> !Openable(fs, rest[j]));
      }
    }
  }

  /** `OpenCandidate`: try the candidates in order, stopping at the first that is not a directory. */
  method OpenCandidate(fs: FileSystem, candidates: seq<string>) returns (r: Result<seq<byte>, Error>)
    ensures r == FirstCandidate(fs, candidates)
  {
    var i := 0;
    while i < |candidates|
      invariant 0 <= i <= |candidates|
      invariant FirstCandidate(fs, candidates) == FirstCandidate(fs, candidates[i..])
    {
      assert candidates[i..][1..] == candidates[i + 1..];
      if candidates[i] !in fs {
        i := i + 1;
        continue;
      }
      if fs[candidates[i]].Directory? {
        i := i + 1;
        continue;
      }
      return ReadFile(fs, candidates[i]);
    }
    return Failure(NoCandidates);
  }
}
