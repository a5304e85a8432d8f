/**
 * The three regular expressions of a mapped expression as slot patterns,
 * the capture arrays `exec` returns for them, and how they relate to each
 * other.
 */
module Patterns {
  import opened Grammar

  /** `/(&{.*?})/g`: a potential mapped expression. The lazy `.*?` stops at
      the first `}`, so it is a run of characters that are neither `}` nor a
      line terminator, followed by `}`. */
  const CandidatePattern: Pattern := [Char('&'), Char('{'), Repeat(LineChars), Char('}')]

  /** The grouped regex of a normal mapped expression. Slot 2 is group 2 (`*`),
      slot 4 group 3 (pipe functions), slot 6 group 4 (the key), slot 8
      group 5 (`?`), slots 10 and 12 groups 6 and 7 (true literal), slot 14
      group 8 (`:`), slots 16 and 18 groups 9 and 10 (false literal); the odd
      slots from 3 to 19 are the ` *` between them. */
  const NormalPattern: Pattern := [
    Char('&'), Char('{'),
    Opt('*'), Repeat(Space),
    PipeList, Repeat(Space),
    Key, Repeat(Space),
    Opt('?'), Repeat(Space),
    DoubleQuoted, Repeat(Space),
    SingleQuoted, Repeat(Space),
    Opt(':'), Repeat(Space),
    DoubleQuoted, Repeat(Space),
    SingleQuoted, Repeat(Space),
    Char('}')]

  /** The optional group of the pipe list: `(`, a run of `[a-zA-Z0-9_,]`, `)`. */
  const PipeList: Slot := OptGroup('(', PipeChars, ')')
  /** A run of key characters `[a-zA-Z0-9_.]*`. */
  const Key: Slot := Repeat(KeyChars)
  /** The optional group of a double-quoted literal of `[a-zA-Z0-9_. ]`. */
  const DoubleQuoted: Slot := OptGroup('"', LiteralChars, '"')
  /** The optional group of a single-quoted literal of `[a-zA-Z0-9_. ]`. */
  const SingleQuoted: Slot := OptGroup('\'', LiteralChars, '\'')

  /** The slots of the normal pattern that hold a capture of its own shape. */
  lemma NormalSlots()
    ensures NormalPattern[4] == PipeList && NormalPattern[6] == Key
    ensures NormalPattern[10] == DoubleQuoted && NormalPattern[12] == SingleQuoted
    ensures NormalPattern[16] == DoubleQuoted && NormalPattern[18] == SingleQuoted
  {
  }

  /** `/(&{#)([a-zA-Z0-9_.]*?)(})/g`: an iterated mapped expression. */
  const IteratedPattern: Pattern := [Char('&'), Char('{'), Char('#'), Key, Char('}')]

  /** What an optional capture group holds: `undefined` when it took nothing. */
  function Captured(p: string): (r: Option<string>)
    ensures r.None? <==> p == []
  {
    if p == [] then None else Some(p)
  }

  /** The array `exec` returns for the normal pattern: index 0 is the whole
      match, 1 to 11 the capture groups. Group `g` from 2 to 10 is the piece
      of slot `2g - 2`, undefined when that optional slot took nothing; the
      key group 4 is always defined. */
  function NormalGroups(ps: seq<string>): (r: seq<Option<string>>)
    requires |ps| == |NormalPattern|
    ensures |r| == 12 && r[0] == Some(Concat(ps)) && r[4] == Some(ps[6])
    ensures forall g :: 2 <= g <= 10 && g != 4 ==> r[g] == Captured(ps[2 * g - 2])
  {
    [Some(Concat(ps)), Some(ps[0] + ps[1]), Captured(ps[2]), Captured(ps[4]), Some(ps[6]),
     Captured(ps[8]), Captured(ps[10]), Captured(ps[12]), Captured(ps[14]),
     Captured(ps[16]), Captured(ps[18]), Some(ps[20])]
  }

  /** The array `exec` returns for the iterated pattern: the whole match,
      then `&{#`, the key and `}`. */
  function IteratedGroups(ps: seq<string>): (r: seq<Option<string>>)
    requires |ps| == |IteratedPattern|
    ensures |r| == 4 && r[0] == Some(Concat(ps)) && r[2] == Some(ps[3])
  {
    [Some(Concat(ps)), Some(ps[0] + ps[1] + ps[2]), Some(ps[3]), Some(ps[4])]
  }

  /** A candidate: `&{`, then characters that are neither `}` nor line
      terminators, then `}`. */
  predicate IsCandidate(c: string) {
    |c| >= 3 && c[0] == '&' && c[1] == '{' && c[|c| - 1] == '}' &&
    forall i :: 2 <= i < |c| - 1 ==> InClass(LineChars, c[i])
  }

  /** The candidate pattern matches exactly the candidates: at the start of
      `s` it takes the shortest prefix that is a candidate, or fails when
      there is none. */
  lemma CandidateMatch(s: string)
    ensures MatchAt(CandidatePattern, s).Some? <==> exists k :: 0 <= k <= |s| && IsCandidate(s[..k])
    ensures MatchAt(CandidatePattern, s).Some? ==>
              var k := |Concat(MatchAt(CandidatePattern, s).value.0)|;
              k <= |s| && IsCandidate(s[..k]) && forall j :: 0 <= j < k ==> !IsCandidate(s[..j])
  {
    var r := MatchAt(CandidatePattern, s);
    if r.Some? {
      MatchPieces(CandidatePattern, s);
      var ps := r.value.0;
      assert InSlot(CandidatePattern[2], ps[2]);
      CandidateText(ps);
      var k := |Concat(ps)|;
      assert s[..k] == Concat(ps);
      forall j | 0 <= j < k ensures !IsCandidate(s[..j]) {
        if j >= 3 {
          assert s[..j][j - 1] == Concat(ps)[j - 1];
        }
      }
    }
    if exists k :: 0 <= k <= |s| && IsCandidate(s[..k]) {
      var k :| 0 <= k <= |s| && IsCandidate(s[..k]);
      CandidatePrefixMatches(s, k);
    }
  }

  lemma CandidatePrefixMatches(s: string, k: nat)
    requires k <= |s| && IsCandidate(s[..k])
    ensures MatchAt(CandidatePattern, s).Some?
  {
    var c := s[..k];
    var mid := CandidateParts(c);
    assert s == c + s[k..];
    CandidateDecomposition(mid, s[k..]);
    MatchAtComplete(CandidatePattern, ["&", "{", mid, "}"], s, s[k..]);
  }

  /** A candidate is `&{`, a run of its inner characters, and `}`. */
  lemma CandidateParts(c: string) returns (mid: string)
    requires IsCandidate(c)
    ensures c == "&{" + mid + "}"
    ensures forall i :: 0 <= i < |mid| ==> InClass(LineChars, mid[i])
  {
    mid := c[2..|c| - 1];
    forall i | 0 <= i < |mid| ensures InClass(LineChars, mid[i]) {
      assert mid[i] == c[i + 2];
    }
    assert c == c[..2] + mid + c[|c| - 1..];
    assert c[..2] == "&{" && c[|c| - 1..] == "}";
  }

  lemma CandidateDecomposition(mid: string, rest: string)
    requires forall i :: 0 <= i < |mid| ==> InClass(LineChars, mid[i])
    ensures Decomposes(CandidatePattern, ["&", "{", mid, "}"], "&{" + mid + "}" + rest, rest)
  {
    var ps := ["&", "{", mid, "}"];
    CandidateText(ps);
    assert ps[3..] == ["}"] && Concat(ps[3..]) == "}";
    forall i | 0 <= i < 4
      ensures InSlot(CandidatePattern[i], ps[i]) && Greedy(CandidatePattern[i], ps[i], Concat(ps[i + 1..]) + rest)
    {
      if i == 2 {
        assert (Concat(ps[3..]) + rest)[0] == '}';
      }
    }
  }

  /** The text a candidate match covers. */
  lemma CandidateText(ps: seq<string>)
    requires |ps| == 4 && ps[0] == "&" && ps[1] == "{" && ps[3] == "}"
    requires forall i :: 0 <= i < |ps[2]| ==> InClass(LineChars, ps[2][i])
    ensures Concat(ps) == "&{" + ps[2] + "}" && IsCandidate(Concat(ps))
  {
    assert Concat(ps[3..]) == "}";
    assert Concat(ps[2..]) == ps[2] + "}";
    assert Concat(ps[1..]) == "{" + ps[2] + "}";
  }

  /** The slots between `&{` and `}` of the normal pattern admit neither `}`,
      nor a line terminator, nor `#`. */
  lemma NormalInnerChars(i: int, ch: char)
    requires 2 <= i < 20 && Admits(NormalPattern[i], ch)
    ensures InClass(LineChars, ch) && ch != '#'
  {
  }

  /** The text a normal match covers: `&{`, an inner part free of `}`, line
      terminators and `#`, then `}`. */
  lemma NormalText(ps: seq<string>)
    requires |ps| == |NormalPattern|
    requires forall i :: 0 <= i < |ps| ==> InSlot(NormalPattern[i], ps[i])
    ensures Concat(ps) == "&{" + Concat(ps[2..20]) + "}"
    ensures forall j :: 0 <= j < |Concat(ps[2..20])| ==>
              InClass(LineChars, Concat(ps[2..20])[j]) && Concat(ps[2..20])[j] != '#'
  {
    assert ps == ps[..2] + ps[2..20] + ps[20..];
    ConcatAppend(ps[..2] + ps[2..20], ps[20..]);
    ConcatAppend(ps[..2], ps[2..20]);
    assert InSlot(NormalPattern[0], ps[0]) && InSlot(NormalPattern[1], ps[1]) && InSlot(NormalPattern[20], ps[20]);
    assert ps[..2] == ["&", "{"];
    assert ps[20..] == ["}"];
    assert Concat(ps[..2][1..]) == "{";
    forall i | 0 <= i < 18 ensures InSlot(NormalPattern[i + 2], ps[2..20][i]) {
      assert ps[2..20][i] == ps[i + 2];
    }
    NormalInner(ps[2..20]);
  }

  /** The pieces between `&{` and `}` hold neither a line terminator nor
      `}` nor `#`. */
  lemma NormalInner(inner: seq<string>)
    requires |inner| == 18
    requires forall i :: 0 <= i < 18 ==> InSlot(NormalPattern[i + 2], inner[i])
    ensures forall j :: 0 <= j < |Concat(inner)| ==>
              InClass(LineChars, Concat(inner)[j]) && Concat(inner)[j] != '#'
  {
    forall i, j | 0 <= i < |inner| && 0 <= j < |inner[i]|
      ensures InClass(LineChars, inner[i][j]) && inner[i][j] != '#'
    {
      AdmitsAll(NormalPattern[i + 2], inner[i]);
      NormalInnerChars(i + 2, inner[i][j]);
    }
    ConcatChars(inner, ch => InClass(LineChars, ch) && ch != '#');
  }

  /** The text an iterated match covers: `&{#`, the key, then `}`. */
  lemma IteratedText(ps: seq<string>)
    requires |ps| == |IteratedPattern|
    requires forall i :: 0 <= i < |ps| ==> InSlot(IteratedPattern[i], ps[i])
    ensures Concat(ps) == "&{#" + ps[3] + "}"
    ensures forall j :: 0 <= j < |ps[3]| ==> InClass(KeyChars, ps[3][j])
    ensures IsCandidate(Concat(ps))
  {
    assert InSlot(IteratedPattern[3], ps[3]);
    assert Concat(ps[4..]) == "}";
    assert Concat(ps[3..]) == ps[3] + "}";
    assert Concat(ps[2..]) == "#" + ps[3] + "}";
    assert Concat(ps[1..]) == "{#" + ps[3] + "}";
    var c := Concat(ps);
    forall i | 2 <= i < |c| - 1 ensures InClass(LineChars, c[i]) {
      if i > 2 {
        assert c[i] == ps[3][i - 3];
      }
    }
  }

  /** Whatever the normal pattern accepts is itself a candidate, so the
      candidate scan never cuts a normal expression short. */
  lemma NormalMatchIsCandidate(s: string)
    requires MatchAt(NormalPattern, s).Some?
    ensures IsCandidate(Concat(MatchAt(NormalPattern, s).value.0))
  {
    MatchPieces(NormalPattern, s);
    var ps := MatchAt(NormalPattern, s).value.0;
    NormalText(ps);
    var c := Concat(ps);
    var inner := Concat(ps[2..20]);
    forall i | 2 <= i < |c| - 1 ensures InClass(LineChars, c[i]) {
      assert c[i] == inner[i - 2];
    }
  }

  /** The same for the iterated pattern. */
  lemma IteratedMatchIsCandidate(s: string)
    requires MatchAt(IteratedPattern, s).Some?
    ensures IsCandidate(Concat(MatchAt(IteratedPattern, s).value.0))
  {
    MatchPieces(IteratedPattern, s);
    IteratedText(MatchAt(IteratedPattern, s).value.0);
  }

  /** At one offset the two strict patterns exclude each other: a normal
      match never has `#` after its `&{`. */
  lemma NormalExcludesIterated(s: string)
    requires MatchAt(NormalPattern, s).Some?
    ensures MatchAt(IteratedPattern, s).None?
  {
    MatchPieces(NormalPattern, s);
    var ps := MatchAt(NormalPattern, s).value.0;
    NormalText(ps);
    var inner := Concat(ps[2..20]);
    assert s[2] == (inner + "}")[0];
    assert s[2] != '#';
    var r := MatchAt(IteratedPattern, s);
    if r.Some? {
      MatchPieces(IteratedPattern, s);
      IteratedText(r.value.0);
    }
  }

  /** A candidate holds a single `}`, its last character. */
  lemma CandidateBraces(c: string, j: int)
    requires IsCandidate(c) && 0 <= j < |c| && c[j] == '}'
    ensures j == |c| - 1
  {
  }

  /** The patterns are not anchored: a match may start anywhere in the
      candidate, but within a candidate it always runs to the candidate's end. */
  lemma NormalMatchEndsCandidate(c: string, p: nat)
    requires IsCandidate(c) && p <= |c| && MatchAt(NormalPattern, c[p..]).Some?
    ensures MatchAt(NormalPattern, c[p..]).value.1 == []
  {
    MatchPieces(NormalPattern, c[p..]);
    var m := MatchAt(NormalPattern, c[p..]).value;
    NormalText(m.0);
    var t := Concat(m.0);
    assert c[p..] == t + m.1;
    assert c[p + |t| - 1] == t[|t| - 1] == '}';
    CandidateBraces(c, p + |t| - 1);
  }

  lemma IteratedMatchEndsCandidate(c: string, p: nat)
    requires IsCandidate(c) && p <= |c| && MatchAt(IteratedPattern, c[p..]).Some?
    ensures MatchAt(IteratedPattern, c[p..]).value.1 == []
  {
    MatchPieces(IteratedPattern, c[p..]);
    var m := MatchAt(IteratedPattern, c[p..]).value;
    IteratedText(m.0);
    var t := Concat(m.0);
    assert c[p..] == t + m.1;
    assert c[p + |t| - 1] == t[|t| - 1] == '}';
    CandidateBraces(c, p + |t| - 1);
  }

  /** Where a normal match lies in a candidate: `&{` at its offset, and no
      `#` from there to the candidate's closing `}`. */
  lemma NormalMatchInCandidate(c: string, p: nat)
    requires IsCandidate(c) && p <= |c| && MatchAt(NormalPattern, c[p..]).Some?
    ensures p + 3 <= |c| && c[p] == '&' && c[p + 1] == '{'
    ensures forall j :: p + 2 <= j < |c| - 1 ==> c[j] != '#'
  {
    NormalMatchEndsCandidate(c, p);
    MatchPieces(NormalPattern, c[p..]);
    var ps := MatchAt(NormalPattern, c[p..]).value.0;
    NormalText(ps);
    var inner := Concat(ps[2..20]);
    assert c[p..] == "&{" + inner + "}";
    forall j | p + 2 <= j < |c| - 1 ensures c[j] != '#' {
      assert c[j] == c[p..][j - p] == inner[j - p - 2];
    }
  }

  /** Where an iterated match lies in a candidate: `&{#` at its offset, and
      key characters from there to the candidate's closing `}`. */
  lemma IteratedMatchInCandidate(c: string, q: nat)
    requires IsCandidate(c) && q <= |c|
    ensures MatchAt(IteratedPattern, c[q..]).Some? ==>
              q + 4 <= |c| && c[q] == '&' && c[q + 1] == '{' && c[q + 2] == '#' &&
              forall j :: q + 3 <= j < |c| - 1 ==> InClass(KeyChars, c[j])
  {
    if MatchAt(IteratedPattern, c[q..]).Some? {
      IteratedMatchEndsCandidate(c, q);
      MatchPieces(IteratedPattern, c[q..]);
      var ps := MatchAt(IteratedPattern, c[q..]).value.0;
      IteratedText(ps);
      assert c[q..] == "&{#" + ps[3] + "}";
      forall j | q + 3 <= j < |c| - 1 ensures InClass(KeyChars, c[j]) {
        assert c[j] == c[q..][j - q] == ps[3][j - q - 3];
      }
    }
  }

  /** Within a candidate the two strict patterns exclude each other at every
      pair of offsets, not just at one: a normal match has no `#` after its
      `&{`, and an iterated match has no `&` after its own `&`. */
  lemma CandidateOffsetsExclusive(c: string, p: nat, q: nat)
    requires IsCandidate(c) && p <= |c| && q <= |c|
    ensures MatchAt(NormalPattern, c[p..]).None? || MatchAt(IteratedPattern, c[q..]).None?
  {
    if MatchAt(NormalPattern, c[p..]).Some? {
      NormalMatchInCandidate(c, p);
      IteratedMatchInCandidate(c, q);
      if p <= q {
        // the `#` an iterated match needs at q + 2 would lie in the normal match's inner part
        assert q + 4 > |c| || c[q + 2] != '#';
      } else if p == q + 1 {
        assert c[q + 1] != '{';
      } else if p == q + 2 {
        assert c[q + 2] != '#';
      } else {
        // the normal match's `&` would lie in the iterated match's key
        assert q + 3 <= p < |c| - 1 && !InClass(KeyChars, c[p]);
      }
    }
  }

  /** The grouped and the iterated pattern are mutually exclusive on a
      candidate: when `exec` of the grouped one finds a match, `exec` of
      the iterated one finds none. */
  lemma CandidateExclusive(c: string)
    requires IsCandidate(c)
    ensures Exec(NormalPattern, c).Some? ==> Exec(IteratedPattern, c).None?
  {
    var n := Exec(NormalPattern, c);
    var t := Exec(IteratedPattern, c);
    if n.Some? && t.Some? {
      CandidateOffsetsExclusive(c, n.value.index, t.value.index);
    }
  }
}
