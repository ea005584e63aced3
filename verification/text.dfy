/** String helpers shared by the two renderers. */
module Text {

  /** `string.Join("", Enumerable.Repeat("  ", n))`. */
  function Pad(n: nat): (s: string)
    ensures |s| == 2 * n
    ensures forall i :: 0 <= i < |s| ==> s[i] == ' '
  {
    if n == 0 then "" else "  " + Pad(n - 1)
  }

  /** The parts separated by `sep`, with no separator after the last part. */
  function Join(sep: string, parts: seq<string>): string
  {
    if parts == [] then ""
    else if |parts| == 1 then parts[0]
    else parts[0] + sep + Join(sep, parts[1..])
  }

  /** A string ends with the given suffix. */
  predicate EndsWith(s: string, suffix: string)
  {
    |suffix| <= |s| && s[|s| - |suffix|..] == suffix
  }

  predicate StartsWith(s: string, prefix: string)
  {
    |prefix| <= |s| && s[..|prefix|] == prefix
  }

  /** Every part preceded by `sep`, concatenated. */
  function Prefixed(sep: string, parts: seq<string>): string
  {
    if parts == [] then "" else sep + parts[0] + Prefixed(sep, parts[1..])
  }

  lemma {:induction false} PrefixedAppend(sep: string, xs: seq<string>, ys: seq<string>)
    ensures Prefixed(sep, xs + ys) == Prefixed(sep, xs) + Prefixed(sep, ys)
    decreases |xs|
  {
    if xs != [] {
      assert (xs + ys)[1..] == xs[1..] + ys;
      PrefixedAppend(sep, xs[1..], ys);
    } else {
      assert xs + ys == ys;
    }
  }

  /** Joining a first part and the rest is the first part followed by the
      rest, each preceded by the separator. */
  lemma {:induction false} JoinCons(sep: string, first: string, rest: seq<string>)
    ensures Join(sep, [first] + rest) == first + Prefixed(sep, rest)
    decreases |rest|
  {
    if rest != [] {
      assert ([first] + rest)[1..] == [rest[0]] + rest[1..];
      JoinCons(sep, rest[0], rest[1..]);
    }
  }

  /** Joining a first line, some middle lines and a last line. */
  lemma JoinFramed(sep: string, first: string, middle: seq<string>, last: string)
    ensures Join(sep, [first] + middle + [last]) == first + Prefixed(sep, middle) + (sep + last)
  {
    var rest := middle + [last];
    assert [first] + middle + [last] == [first] + rest;
    JoinCons(sep, first, rest);
    PrefixedLast(sep, middle, last);
  }

  lemma PrefixedLast(sep: string, middle: seq<string>, last: string)
    ensures Prefixed(sep, middle + [last]) == Prefixed(sep, middle) + (sep + last)
  {
    PrefixedAppend(sep, middle, [last]);
    assert Prefixed(sep, [last]) == sep + last;
  }

  /** A string made of three parts starts with the first and ends with the
      last two. */
  lemma Framed(a: string, b: string, c: string)
    ensures StartsWith(a + b + c, a)
    ensures EndsWith(a + b + c, c)
    ensures EndsWith(a + b + c, b + c)
  {
    var s := a + b + c;
    assert s[..|a|] == a;
    assert s[|s| - |c|..] == c;
    assert s[|s| - |b + c|..] == b + c;
  }

  /** A string made of four parts ends with the last three. */
  lemma Framed4(a: string, b: string, c: string, d: string)
    ensures EndsWith(a + b + c + d, b + c + d)
  {
    var s := a + b + c + d;
    assert s[|a|..] == b + c + d;
  }
}
