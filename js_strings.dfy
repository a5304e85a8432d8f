/**
 * The two JavaScript string operations the expression parser relies on:
 * `String.prototype.substring` and `String.prototype.split` with a
 * one-character separator.
 */
module JsStrings {

  function Clamp(x: int, hi: nat): (r: nat)
    ensures r <= hi
  {
    if x < 0 then 0 else if x > hi then hi else x
  }

  /** `s.substring(start, end)`: both bounds are clamped to `[0, |s|]` and
      swapped when the start lies after the end. */
  function Substring(s: string, start: int, end: int): (r: string)
    ensures 0 <= start <= end <= |s| ==> r == s[start..end]
    ensures 0 <= end <= start <= |s| ==> r == s[end..start]
    ensures |r| <= |s|
  {
    var a, b := Clamp(start, |s|), Clamp(end, |s|);
    if a <= b then s[a..b] else s[b..a]
  }

  /** Bounds outside the string act as its ends, and the order of the two
      bounds does not matter. */
  lemma SubstringBounds(s: string, start: int, end: int)
    ensures Substring(s, start, end) == Substring(s, Clamp(start, |s|), Clamp(end, |s|))
    ensures Substring(s, start, end) == Substring(s, end, start)
    ensures start <= 0 && |s| <= end ==> Substring(s, start, end) == s
  {
  }

  /** `s.substring(1, s.length - 1)` drops the first and the last character
      of a string of two or more; a one-character string comes back whole,
      because the bounds 1 and 0 are swapped. */
  lemma SubstringStripsEnds(s: string)
    ensures |s| >= 2 ==> [s[0]] + Substring(s, 1, |s| - 1) + [s[|s| - 1]] == s
    ensures |s| < 2 ==> Substring(s, 1, |s| - 1) == s
  {
    if |s| >= 2 {
      assert Substring(s, 1, |s| - 1) == s[1..|s| - 1];
      assert s == s[..1] + s[1..|s| - 1] + s[|s| - 1..];
    }
  }

  /** The inverse of `Split`: the parts with the separator between them. */
  function Join(parts: seq<string>, sep: char): string
    requires |parts| >= 1
  {
    if |parts| == 1 then parts[0] else parts[0] + [sep] + Join(parts[1..], sep)
  }

  /** `s.split(sep)`: the maximal separator-free pieces of `s`, in order;
      the empty string gives one empty piece. */
  function Split(s: string, sep: char): (parts: seq<string>)
    ensures |parts| >= 1
    ensures Join(parts, sep) == s
    ensures forall i :: 0 <= i < |parts| ==> sep !in parts[i]
    decreases |s|
  {
    if s == [] then
      [[]]
    else
      var tail := Split(s[1..], sep);
      if s[0] == sep then
        [[]] + tail
      else
        assert [s[0]] + Join(tail, sep) == s;
        [[s[0]] + tail[0]] + tail[1..]
  }

  /** A separator-free string is one piece. */
  lemma {:induction false} SplitWhole(p: string, sep: char)
    requires sep !in p
    ensures Split(p, sep) == [p]
    decreases |p|
  {
    if p != [] {
      SplitWhole(p[1..], sep);
      assert [p[0]] + p[1..] == p;
    }
  }

  /** A separator-free prefix followed by the separator is split off whole. */
  lemma {:induction false} SplitPrefix(p: string, rest: string, sep: char)
    requires sep !in p
    ensures Split(p + [sep] + rest, sep) == [p] + Split(rest, sep)
    decreases |p|
  {
    var s := p + [sep] + rest;
    if p != [] {
      SplitPrefix(p[1..], rest, sep);
      assert s[1..] == p[1..] + [sep] + rest;
      var tail := Split(s[1..], sep);
      assert tail[0] == p[1..] && tail[1..] == Split(rest, sep);
      assert s[0] == p[0] != sep;
      assert Split(s, sep) == [[p[0]] + tail[0]] + tail[1..];
      assert [p[0]] + p[1..] == p;
    } else {
      assert s[0] == sep && s[1..] == rest;
    }
  }

  /** `Split` undoes `Join` when no part holds the separator. */
  lemma {:induction false} SplitJoin(parts: seq<string>, sep: char)
    requires |parts| >= 1
    requires forall i :: 0 <= i < |parts| ==> sep !in parts[i]
    ensures Split(Join(parts, sep), sep) == parts
    decreases |parts|
  {
    if |parts| == 1 {
      SplitWhole(parts[0], sep);
    } else {
      SplitJoin(parts[1..], sep);
      SplitPrefix(parts[0], Join(parts[1..], sep), sep);
      assert [parts[0]] + parts[1..] == parts;
    }
  }

  /** Every character of a part is a character of the joined string. */
  lemma {:induction false} JoinHolds(parts: seq<string>, sep: char, i: nat, j: nat)
    requires |parts| >= 1 && i < |parts| && j < |parts[i]|
    ensures parts[i][j] in Join(parts, sep)
    decreases i
  {
    if i == 0 {
      if |parts| > 1 {
        assert Join(parts, sep)[j] == parts[0][j];
      }
    } else {
      JoinHolds(parts[1..], sep, i - 1, j);
    }
  }
}
