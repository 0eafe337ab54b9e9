/**
 * The parts of Go's `strings` package the core relies on: `ToLower` (restricted to
 * ASCII letters) and `Split` around a one-character separator, with `Join` as the
 * inverse that specifies `Split`.
 */
module Text {

  predicate IsUpper(c: char) {
    'A' <= c <= 'Z'
  }

  /** True when some character of `s` is an upper-case letter. */
  predicate HasUpper(s: string) {
    exists i :: 0 <= i < |s| && IsUpper(s[i])
  }

  function Lower(c: char): (r: char)
    ensures !IsUpper(r)
    ensures !IsUpper(c) ==> r == c
    ensures IsUpper(c) ==> r as int == c as int + 32
  {
    if IsUpper(c) then (c as int + 32) as char else c
  }

  /** `strings.ToLower` on ASCII: every letter lowered, nothing else touched. */
  function ToLower(s: string): (r: string)
    ensures |r| == |s|
    ensures forall i :: 0 <= i < |s| ==> r[i] == Lower(s[i])
    ensures !HasUpper(r)
  {
    seq(|s|, i requires 0 <= i < |s| => Lower(s[i]))
  }

  lemma ToLowerIdempotent(s: string)
    ensures ToLower(ToLower(s)) == ToLower(s)
  {
  }

  lemma ToLowerKeepsLowerCase(s: string)
    requires !HasUpper(s)
    ensures ToLower(s) == s
  {
  }

  /** The inverse of `Split`: the parts glued back with the separator between them. */
  function Join(parts: seq<string>, sep: char): string
    requires |parts| >= 1
    decreases |parts|
  {
    if |parts| == 1 then parts[0] else parts[0] + [sep] + Join(parts[1..], sep)
  }

  /**
   * `strings.Split(s, string(sep))`: the pieces of `s` between separators, so that
   * there is always at least one piece (`Split("", sep) == [""]`), no piece holds
   * the separator, and joining the pieces gives `s` back.
   */
  function Split(s: string, sep: char): (parts: seq<string>)
    ensures |parts| >= 1
    ensures forall i :: 0 <= i < |parts| ==> sep !in parts[i]
    ensures Join(parts, sep) == s
    decreases |s|
  {
    if |s| == 0 then [""]
    else
      var rest := Split(s[1..], sep);
      if s[0] == sep then [""] + rest
      else [[s[0]] + rest[0]] + rest[1..]
  }

  lemma {:induction false} SplitNoSeparator(x: string, sep: char)
    requires sep !in x
    ensures Split(x, sep) == [x]
    decreases |x|
  {
    if |x| > 0 {
      SplitNoSeparator(x[1..], sep);
      assert [x[0]] + x[1..] == x;
    }
  }

  lemma {:induction false} SplitAtSeparator(x: string, y: string, sep: char)
    requires sep !in x
    ensures Split(x + [sep] + y, sep) == [x] + Split(y, sep)
    decreases |x|
  {
    var s := x + [sep] + y;
    if |x| == 0 {
      assert s[1..] == y;
    } else {
      assert s[1..] == x[1..] + [sep] + y;
      SplitAtSeparator(x[1..], y, sep);
      assert [x[0]] + x[1..] == x;
    }
  }

  /** `Split` undoes `Join` when no part holds the separator. */
  lemma {:induction false} SplitJoin(parts: seq<string>, sep: char)
    requires |parts| >= 1
    requires forall i :: 0 <= i < |parts| ==> sep !in parts[i]
    ensures Split(Join(parts, sep), sep) == parts
    decreases |parts|
  {
    if |parts| == 1 {
      SplitNoSeparator(parts[0], sep);
    } else {
      SplitJoin(parts[1..], sep);
      SplitAtSeparator(parts[0], Join(parts[1..], sep), sep);
      assert [parts[0]] + parts[1..] == parts;
    }
  }

  /** Every segment of a split lower-cased key is itself lower-case. */
  lemma SplitLowerSegments(s: string, sep: char)
    ensures forall i :: 0 <= i < |Split(ToLower(s), sep)| ==> !HasUpper(Split(ToLower(s), sep)[i])
  {
    var parts := Split(ToLower(s), sep);
    forall i | 0 <= i < |parts| ensures !HasUpper(parts[i]) {
      JoinedPartHasNoUpper(parts, sep, i);
    }
  }

  lemma {:induction false} JoinedPartHasNoUpper(parts: seq<string>, sep: char, i: nat)
    requires |parts| >= 1 && i < |parts|
    requires !HasUpper(Join(parts, sep))
    ensures !HasUpper(parts[i])
    decreases |parts|
  {
    if |parts| > 1 {
      var rest := Join(parts[1..], sep);
      assert Join(parts, sep) == parts[0] + [sep] + rest;
      if i == 0 {
        forall k | 0 <= k < |parts[0]| ensures !IsUpper(parts[0][k]) {
          assert parts[0][k] == Join(parts, sep)[k];
        }
      } else {
        forall k | 0 <= k < |rest| ensures !IsUpper(rest[k]) {
          assert rest[k] == Join(parts, sep)[|parts[0]| + 1 + k];
        }
        JoinedPartHasNoUpper(parts[1..], sep, i - 1);
      }
    }
  }
}
