/** Values and string helpers shared by the models of the web page, the
    backend services and the Android shell. */
module Basics {

  /** A value that may be absent: `null`/`undefined` in TypeScript and
      Kotlin, `None` in Python. */
  datatype Option<T> = None | Some(value: T) {
    /** `x || fallback` / `x ?: fallback` for a value that may be missing. */
    function GetOr(fallback: T): T {
      if Some? then value else fallback
    }
  }

  predicate IsDigit(c: char) {
    '0' <= c <= '9'
  }

  predicate AllDigits(s: string) {
    forall i :: 0 <= i < |s| ==> IsDigit(s[i])
  }

  /** The value of a run of decimal digits. */
  function DigitsValue(s: string): nat
    requires AllDigits(s)
    decreases |s|
  {
    if s == [] then 0 else DigitsValue(s[..|s| - 1]) * 10 + (s[|s| - 1] as int - '0' as int)
  }

  /** The decimal form of a natural number (`str(n)`, `${n}`): digits only,
      no leading zero, reading back as `n`. */
  function NatToString(n: nat): (s: string)
    ensures |s| >= 1 && AllDigits(s) && DigitsValue(s) == n
    ensures |s| > 1 ==> s[0] != '0'
    decreases n
  {
    var last := ['0' + (n % 10) as char];
    if n < 10 then last
    else
      var s := NatToString(n / 10) + last;
      assert s[..|s| - 1] == NatToString(n / 10);
      s
  }

  predicate StartsWith(s: string, prefix: string) {
    |prefix| <= |s| && s[..|prefix|] == prefix
  }

  /** `sub in s` in Python, `s.includes(sub)` in TypeScript. */
  predicate Contains(s: string, sub: string)
    decreases |s|
  {
    StartsWith(s, sub) || (s != [] && Contains(s[1..], sub))
  }

  /** No part contains the separator. */
  predicate Excludes(parts: seq<string>, sep: char) {
    forall i :: 0 <= i < |parts| ==> sep !in parts[i]
  }

  /** `parts.join(sep)` in TypeScript, `sep.join(parts)` in Python: the parts
      with one separator between neighbours. */
  function Join(parts: seq<string>, sep: char): string {
    if |parts| == 0 then []
    else if |parts| == 1 then parts[0]
    else parts[0] + [sep] + Join(parts[1..], sep)
  }

  /** `s.split(sep)` for a one-character separator: the maximal runs between
      separators, so there is always at least one part (`"".split(":")` is
      `[""]`). Joining the parts again gives back `s`. */
  function Split(s: string, sep: char): (parts: seq<string>)
    ensures |parts| >= 1
    ensures Excludes(parts, sep)
    ensures Join(parts, sep) == s
    decreases |s|
  {
    if s == [] then [[]]
    else
      var rest := Split(s[1..], sep);
      if s[0] == sep then
        assert s == [sep] + s[1..];
        [[]] + rest
      else
        var parts := [[s[0]] + rest[0]] + rest[1..];
        assert parts[1..] == rest[1..];
        assert s == [s[0]] + s[1..];
        parts
  }

  lemma {:induction false} SplitWithoutSeparator(p: string, sep: char)
    requires sep !in p
    ensures Split(p, sep) == [p]
    decreases |p|
  {
    if p != [] {
      SplitWithoutSeparator(p[1..], sep);
      assert p == [p[0]] + p[1..];
    }
  }

  /** Splitting distributes over a separator: `(a + sep + b).split(sep)` is
      `a.split(sep)` followed by `b.split(sep)`. */
  lemma {:induction false} SplitAround(a: string, b: string, sep: char)
    ensures Split(a + [sep] + b, sep) == Split(a, sep) + Split(b, sep)
    decreases |a|
  {
    var s := a + [sep] + b;
    if a == [] {
      assert s[1..] == b;
    } else {
      assert s[1..] == a[1..] + [sep] + b;
      SplitAround(a[1..], b, sep);
    }
  }

  /** The inverse direction of `Split`'s contract: parts that do not contain
      the separator are recovered from their join. */
  lemma {:induction false} SplitOfJoin(parts: seq<string>, sep: char)
    requires |parts| >= 1 && Excludes(parts, sep)
    ensures Split(Join(parts, sep), sep) == parts
    decreases |parts|
  {
    SplitWithoutSeparator(parts[0], sep);
    if |parts| > 1 {
      SplitOfJoin(parts[1..], sep);
      SplitAround(parts[0], Join(parts[1..], sep), sep);
      assert parts == [parts[0]] + parts[1..];
    }
  }

  /** A character other than the separator occurs in a join only if it
      occurs in one of the parts. */
  lemma {:induction false} JoinExcludes(parts: seq<string>, sep: char, c: char)
    requires c != sep && Excludes(parts, c)
    ensures c !in Join(parts, sep)
    decreases |parts|
  {
    if |parts| > 1 {
      JoinExcludes(parts[1..], sep, c);
    }
  }

  /** A string occurs in any string that ends with one it occurs in. */
  lemma {:induction false} ContainsInSuffix(a: string, s: string, sub: string)
    requires Contains(s, sub)
    ensures Contains(a + s, sub)
    decreases |a|
  {
    if a != [] {
      ContainsInSuffix(a[1..], s, sub);
      assert (a + s)[1..] == a[1..] + s;
    } else {
      assert a + s == s;
    }
  }

  /** Each part occurs in the join. */
  lemma {:induction false} JoinContainsParts(parts: seq<string>, sep: char, i: nat)
    requires i < |parts|
    ensures Contains(Join(parts, sep), parts[i])
    decreases i
  {
    var j := Join(parts, sep);
    if i == 0 {
      assert j[..|parts[0]|] == parts[0];
    } else {
      JoinContainsParts(parts[1..], sep, i - 1);
      ContainsInSuffix(parts[0] + [sep], Join(parts[1..], sep), parts[i]);
    }
  }

  // ---------------------------------------------------------------------
  // Products of reals

  /** Multiplying both sides by a positive number keeps a comparison. */
  lemma ScaledCompare(a: real, b: real, t: real)
    requires 0.0 < t
    ensures a >= b <==> a * t >= b * t
  {
    assert a * t - b * t == (a - b) * t;
    if a >= b {
      ProductNonNegative(a - b, t);
    } else {
      ProductPositive(b - a, t);
    }
  }

  /** The product of a non-negative and a positive number is non-negative. */
  lemma ProductNonNegative(u: real, t: real)
    requires 0.0 <= u && 0.0 < t
    ensures 0.0 <= u * t
  {
  }

  /** The product of two positive numbers is positive. */
  lemma ProductPositive(u: real, t: real)
    requires 0.0 < u && 0.0 < t
    ensures 0.0 < u * t
  {
  }
}
