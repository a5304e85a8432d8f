/**
 * The token grammars behind the three regular expressions of a mapped
 * expression, written as sequences of slots. A slot is matched by a
 * deterministic recognizer that never backtracks: an optional part is taken
 * whenever it is there, and a repetition is as long as it can be.
 *
 * `Decomposes` is the declarative reading of the same thing: the matched text
 * splits into one piece per slot, every piece belongs to its slot's language,
 * and every slot took the longest choice it could. `MatchAt` returns exactly
 * that decomposition (`MatchAtSound` and `MatchAtComplete`).
 */
module Grammar {

  datatype Option<+T> = None | Some(value: T)

  /** The character classes the patterns use. */
  datatype CharClass =
    | Space          // ` `
    | KeyChars       // [a-zA-Z0-9_.]
    | PipeChars      // [a-zA-Z0-9_,]
    | LiteralChars   // [a-zA-Z0-9_. ]
    | LineChars      // `.` (anything but a line terminator), short of the closing `}`

  predicate IsAlnum(ch: char) {
    'a' <= ch <= 'z' || 'A' <= ch <= 'Z' || '0' <= ch <= '9'
  }

  /** The characters a JavaScript `.` does not match. */
  predicate IsLineTerminator(ch: char) {
    ch == '\n' || ch == '\r' || ch == '\U{2028}' || ch == '\U{2029}'
  }

  predicate InClass(cls: CharClass, ch: char) {
    match cls
    case Space => ch == ' '
    case KeyChars => IsAlnum(ch) || ch == '_' || ch == '.'
    case PipeChars => IsAlnum(ch) || ch == '_' || ch == ','
    case LiteralChars => IsAlnum(ch) || ch == '_' || ch == '.' || ch == ' '
    case LineChars => ch != '}' && !IsLineTerminator(ch)
  }

  /** One element of a pattern. */
  datatype Slot =
    | Char(ch: char)                                    // a required character
    | Opt(ch: char)                                     // `(c)?`
    | Repeat(cls: CharClass)                            // `[...]*`
    | OptGroup(open: char, cls: CharClass, close: char) // `(o[...]*?c)?`

  type Pattern = seq<Slot>

  /** Inside a group the lazy `*?` stops at the first closing character. */
  predicate InGroup(cls: CharClass, close: char, ch: char) {
    InClass(cls, ch) && ch != close
  }

  /** The language of one slot. */
  predicate InSlot(slot: Slot, p: string) {
    match slot
    case Char(ch) => p == [ch]
    case Opt(ch) => p == [] || p == [ch]
    case Repeat(cls) => forall i :: 0 <= i < |p| ==> InClass(cls, p[i])
    case OptGroup(o, cls, c) =>
      p == [] ||
      (|p| >= 2 && p[0] == o && p[|p| - 1] == c &&
       forall i :: 0 < i < |p| - 1 ==> InGroup(cls, c, p[i]))
  }

  /** The slot took the longest choice it had: an optional part left out
      only when none of its tokens starts `next`, a repetition stopped only
      where `next` cannot continue it. */
  predicate Greedy(slot: Slot, p: string, next: string) {
    match slot
    case Char(_) => true
    case Repeat(cls) => next == [] || !InClass(cls, next[0])
    case Opt(_) => p == [] ==> forall k :: 0 < k <= |next| ==> !InSlot(slot, next[..k])
    case OptGroup(_, _, _) => p == [] ==> forall k :: 0 < k <= |next| ==> !InSlot(slot, next[..k])
  }

  /** The length of the longest prefix of `s` whose characters are all in `cls`. */
  function RunLength(s: string, cls: CharClass): (n: nat)
    ensures n <= |s|
    ensures forall i :: 0 <= i < n ==> InClass(cls, s[i])
    ensures n == |s| || !InClass(cls, s[n])
  {
    if |s| > 0 && InClass(cls, s[0]) then 1 + RunLength(s[1..], cls) else 0
  }

  /** The length of the longest prefix of `s` that may stand inside a group. */
  function GroupRunLength(s: string, cls: CharClass, close: char): (n: nat)
    ensures n <= |s|
    ensures forall i :: 0 <= i < n ==> InGroup(cls, close, s[i])
    ensures n == |s| || !InGroup(cls, close, s[n])
  {
    if |s| > 0 && InGroup(cls, close, s[0]) then 1 + GroupRunLength(s[1..], cls, close) else 0
  }

  /** How many characters `slot` takes at the start of `s`; None when a
      required character is not there. */
  function Token(slot: Slot, s: string): (r: Option<nat>)
    ensures r.Some? ==> r.value <= |s| && InSlot(slot, s[..r.value]) && Greedy(slot, s[..r.value], s[r.value..])
    ensures r.None? ==> forall k :: 0 <= k <= |s| ==> !InSlot(slot, s[..k])
  {
    match slot
    case Char(ch) =>
      if |s| > 0 && s[0] == ch then Some(1) else None
    case Opt(ch) =>
      if |s| > 0 && s[0] == ch then Some(1) else Some(0)
    case Repeat(cls) =>
      Some(RunLength(s, cls))
    case OptGroup(o, cls, c) =>
      if |s| > 0 && s[0] == o then
        var n := GroupRunLength(s[1..], cls, c);
        if 1 + n < |s| && s[1 + n] == c then
          GroupTokenShape(s, o, cls, c, n);
          Some(n + 2)
        else
          GroupTokenAbsent(s, o, cls, c, n);
          Some(0)
      else
        Some(0)
  }

  lemma GroupTokenShape(s: string, o: char, cls: CharClass, c: char, n: nat)
    requires |s| > 0 && s[0] == o && 1 + n < |s| && s[1 + n] == c
    requires forall i :: 0 <= i < n ==> InGroup(cls, c, s[1..][i])
    ensures InSlot(OptGroup(o, cls, c), s[..n + 2])
  {
    var p := s[..n + 2];
    forall i | 0 < i < |p| - 1 ensures InGroup(cls, c, p[i]) {
      assert p[i] == s[1..][i - 1];
    }
  }

  /** When the group does not close after the longest run, no prefix is a group token. */
  lemma GroupTokenAbsent(s: string, o: char, cls: CharClass, c: char, n: nat)
    requires |s| > 0 && s[0] == o
    requires n == GroupRunLength(s[1..], cls, c)
    requires !(1 + n < |s| && s[1 + n] == c)
    ensures forall k :: 0 < k <= |s| ==> !InSlot(OptGroup(o, cls, c), s[..k])
  {
    forall k | 0 < k <= |s|
      ensures !InSlot(OptGroup(o, cls, c), s[..k])
    {
      assert forall i :: 0 <= i < |s| - 1 ==> s[1..][i] == s[i + 1];
      assert forall i :: 0 <= i < k ==> s[..k][i] == s[i];
    }
  }

  /** The concatenation of a sequence of pieces. */
  function Concat(ps: seq<string>): string {
    if ps == [] then [] else ps[0] + Concat(ps[1..])
  }

  /** `ps` splits `s` into the part the pattern `g` matched and `rest`, one
      piece per slot, each in its slot's language and taken greedily. */
  predicate Decomposes(g: Pattern, ps: seq<string>, s: string, rest: string) {
    |ps| == |g| && Concat(ps) + rest == s &&
    forall i :: 0 <= i < |g| ==> InSlot(g[i], ps[i]) && Greedy(g[i], ps[i], Concat(ps[i + 1..]) + rest)
  }

  /** The recognizer: matches `g` at the start of `s`, returning the pieces
      and the unmatched rest. */
  function MatchAt(g: Pattern, s: string): (r: Option<(seq<string>, string)>)
    ensures r.Some? ==> |r.value.0| == |g|
    decreases |g|
  {
    if g == [] then
      Some(([], s))
    else
      match Token(g[0], s)
      case None => None
      case Some(n) =>
        match MatchAt(g[1..], s[n..])
        case None => None
        case Some(m) => Some(([s[..n]] + m.0, m.1))
  }

  /** One step of the recognizer from slot `k` on: slot `k` takes `n`
      characters and the later slots match what follows them. */
  lemma MatchAtFrom(g: Pattern, k: nat, s: string, n: nat, ps: seq<string>, rest: string)
    requires k < |g| && Token(g[k], s) == Some(n)
    requires MatchAt(g[k + 1..], s[n..]) == Some((ps, rest))
    ensures MatchAt(g[k..], s) == Some(([s[..n]] + ps, rest))
  {
    assert g[k..][0] == g[k] && g[k..][1..] == g[k + 1..];
  }

  /** Whatever the recognizer returns is a greedy decomposition. */
  lemma {:induction false} MatchAtSound(g: Pattern, s: string)
    requires MatchAt(g, s).Some?
    ensures Decomposes(g, MatchAt(g, s).value.0, s, MatchAt(g, s).value.1)
    decreases |g|
  {
    if g != [] {
      var n := Token(g[0], s).value;
      MatchAtSound(g[1..], s[n..]);
      var m := MatchAt(g[1..], s[n..]).value;
      DecomposesCons(g, s[..n], m.0, s, m.1);
    }
  }

  /** The pieces of a match: one per slot, each in its slot's language,
      and followed by the rest they make up `s`. */
  lemma MatchPieces(g: Pattern, s: string)
    requires MatchAt(g, s).Some?
    ensures var m := MatchAt(g, s).value;
            |m.0| == |g| && Concat(m.0) + m.1 == s && forall i :: 0 <= i < |g| ==> InSlot(g[i], m.0[i])
  {
    MatchAtSound(g, s);
  }

  lemma DecomposesCons(g: Pattern, p: string, ps: seq<string>, s: string, rest: string)
    requires |g| > 0 && |p| <= |s| && p == s[..|p|]
    requires InSlot(g[0], p) && Greedy(g[0], p, s[|p|..])
    requires Decomposes(g[1..], ps, s[|p|..], rest)
    ensures Decomposes(g, [p] + ps, s, rest)
  {
    var qs := [p] + ps;
    assert qs[1..] == ps;
    assert Concat(qs) + rest == p + (Concat(ps) + rest);
    assert s == s[..|p|] + s[|p|..];
    forall i | 0 <= i < |g|
      ensures InSlot(g[i], qs[i]) && Greedy(g[i], qs[i], Concat(qs[i + 1..]) + rest)
    {
      if i > 0 {
        assert qs[i] == ps[i - 1] && g[i] == g[1..][i - 1];
        assert qs[i + 1..] == ps[i..];
      }
    }
  }

  lemma RunLengthOf(p: string, next: string, cls: CharClass)
    requires forall i :: 0 <= i < |p| ==> InClass(cls, p[i])
    requires next == [] || !InClass(cls, next[0])
    ensures RunLength(p + next, cls) == |p|
  {
    assert forall i :: 0 <= i < |p| ==> (p + next)[i] == p[i];
    assert |next| > 0 ==> (p + next)[|p|] == next[0];
  }

  lemma GroupRunLengthOf(p: string, next: string, cls: CharClass, close: char)
    requires forall i :: 0 <= i < |p| ==> InGroup(cls, close, p[i])
    requires next != [] && next[0] == close
    ensures GroupRunLength(p + next, cls, close) == |p|
  {
    assert forall i :: 0 <= i < |p| ==> (p + next)[i] == p[i];
    assert (p + next)[|p|] == next[0];
  }

  /** A greedy piece is exactly what the recognizer takes. */
  lemma TokenOfGreedy(slot: Slot, p: string, next: string)
    requires InSlot(slot, p) && Greedy(slot, p, next)
    ensures Token(slot, p + next) == Some(|p|)
  {
    var s := p + next;
    match slot
    case Char(ch) =>
    case Opt(ch) =>
      if p == [] {
        assert s == next;
      }
    case Repeat(cls) =>
      RunLengthOf(p, next, cls);
    case OptGroup(o, cls, c) =>
      if p == [] {
        assert s == next;
      } else {
        var inner := p[1..|p| - 1];
        assert s[1..] == inner + ([c] + next);
        forall i | 0 <= i < |inner| ensures InGroup(cls, c, inner[i]) {
          assert inner[i] == p[i + 1];
        }
        GroupRunLengthOf(inner, [c] + next, cls, c);
        assert s[1 + |inner|] == c;
      }
  }

  /** Whatever greedy decomposition exists is the one `MatchAt` finds:
      together with `MatchAtSound`, the recognizer and `Decomposes` agree on
      every input. */
  lemma {:induction false} MatchAtComplete(g: Pattern, ps: seq<string>, s: string, rest: string)
    requires Decomposes(g, ps, s, rest)
    ensures MatchAt(g, s) == Some((ps, rest))
    decreases |g|
  {
    if g != [] {
      var tail := Concat(ps[1..]) + rest;
      assert Concat(ps) == ps[0] + Concat(ps[1..]);
      assert s == ps[0] + tail;
      TokenOfGreedy(g[0], ps[0], tail);
      var n := |ps[0]|;
      assert s[n..] == tail && s[..n] == ps[0];
      forall i | 0 <= i < |g[1..]|
        ensures InSlot(g[1..][i], ps[1..][i]) && Greedy(g[1..][i], ps[1..][i], Concat(ps[1..][i + 1..]) + rest)
      {
        assert ps[1..][i + 1..] == ps[i + 2..];
        assert InSlot(g[i + 1], ps[i + 1]) && Greedy(g[i + 1], ps[i + 1], Concat(ps[i + 2..]) + rest);
      }
      assert Decomposes(g[1..], ps[1..], tail, rest);
      MatchAtComplete(g[1..], ps[1..], tail, rest);
      assert Token(g[0], s) == Some(n);
      assert MatchAt(g[1..], s[n..]) == Some((ps[1..], rest));
      assert [s[..n]] + ps[1..] == ps;
      assert MatchAt(g, s) == Some(([s[..n]] + ps[1..], rest));
    } else {
      assert ps == [] && Concat(ps) + rest == rest;
    }
  }

  /** The pieces of a successful `exec` and the offset where the match starts. */
  datatype Match = Match(index: nat, pieces: seq<string>)

  /** `exec` of an unanchored pattern from offset `from`: the match at the
      first offset where the pattern matches. */
  function ExecFrom(g: Pattern, s: string, from: nat): (r: Option<Match>)
    requires from <= |s|
    ensures r.Some? ==> from <= r.value.index <= |s| && MatchAt(g, s[r.value.index..]).Some?
                        && MatchAt(g, s[r.value.index..]).value.0 == r.value.pieces
    decreases |s| - from
  {
    match MatchAt(g, s[from..])
    case Some(m) => Some(Match(from, m.0))
    case None => if from == |s| then None else ExecFrom(g, s, from + 1)
  }

  function Exec(g: Pattern, s: string): (r: Option<Match>)
    ensures r.Some? ==> r.value.index <= |s| && MatchAt(g, s[r.value.index..]).Some?
                        && MatchAt(g, s[r.value.index..]).value.0 == r.value.pieces
  {
    ExecFrom(g, s, 0)
  }

  /** The pieces of the match `exec` finds: one per slot, each in its slot's
      language, and together the text at the match's offset. */
  lemma ExecPieces(g: Pattern, s: string)
    requires Exec(g, s).Some?
    ensures var m := Exec(g, s).value;
            |m.pieces| == |g| && m.index + |Concat(m.pieces)| <= |s| &&
            s[m.index..m.index + |Concat(m.pieces)|] == Concat(m.pieces) &&
            forall i :: 0 <= i < |g| ==> InSlot(g[i], m.pieces[i])
  {
    var m := Exec(g, s).value;
    MatchPieces(g, s[m.index..]);
  }

  /** No offset between `from` and the match `ExecFrom` returns, or no
      offset at all when it returns None, matches. */
  lemma {:induction false} ExecFromLeftmost(g: Pattern, s: string, from: nat)
    requires from <= |s|
    ensures forall q :: from <= q <= |s| && (ExecFrom(g, s, from).None? || q < ExecFrom(g, s, from).value.index) ==>
              MatchAt(g, s[q..]).None?
    decreases |s| - from
  {
    if MatchAt(g, s[from..]).None? && from < |s| {
      ExecFromLeftmost(g, s, from + 1);
    }
  }

  /** `exec` finds the leftmost match. */
  lemma ExecLeftmost(g: Pattern, s: string)
    ensures forall q :: 0 <= q <= |s| && (Exec(g, s).None? || q < Exec(g, s).value.index) ==> MatchAt(g, s[q..]).None?
  {
    ExecFromLeftmost(g, s, 0);
  }

  /** Whether `ch` can occur in a piece of `slot`. */
  predicate Admits(slot: Slot, ch: char) {
    match slot
    case Char(c) => ch == c
    case Opt(c) => ch == c
    case Repeat(cls) => InClass(cls, ch)
    case OptGroup(o, cls, c) => ch == o || ch == c || InGroup(cls, c, ch)
  }

  lemma AdmitsAll(slot: Slot, p: string)
    requires InSlot(slot, p)
    ensures forall i :: 0 <= i < |p| ==> Admits(slot, p[i])
  {
  }

  lemma {:induction false} ConcatAppend(a: seq<string>, b: seq<string>)
    ensures Concat(a + b) == Concat(a) + Concat(b)
    decreases |a|
  {
    if a == [] {
      assert a + b == b;
    } else {
      assert (a + b)[1..] == a[1..] + b;
      ConcatAppend(a[1..], b);
    }
  }

  /** Every character of a concatenation is a character of one of its pieces. */
  lemma {:induction false} ConcatChars(ps: seq<string>, ok: char -> bool)
    requires forall i, j :: 0 <= i < |ps| && 0 <= j < |ps[i]| ==> ok(ps[i][j])
    ensures forall j :: 0 <= j < |Concat(ps)| ==> ok(Concat(ps)[j])
    decreases |ps|
  {
    if ps != [] {
      ConcatChars(ps[1..], ok);
      var c := Concat(ps);
      assert c == ps[0] + Concat(ps[1..]);
      forall j | 0 <= j < |c| ensures ok(c[j]) {
        if j < |ps[0]| {
          assert c[j] == ps[0][j];
        } else {
          assert c[j] == Concat(ps[1..])[j - |ps[0]|];
        }
      }
    }
  }

  /** `exec` fails when no offset from `from` on matches. */
  lemma {:induction false} ExecFromNone(g: Pattern, s: string, from: nat)
    requires from <= |s|
    requires forall q :: from <= q <= |s| ==> MatchAt(g, s[q..]).None?
    ensures ExecFrom(g, s, from).None?
    decreases |s| - from
  {
    if from < |s| {
      ExecFromNone(g, s, from + 1);
    }
  }

  /** `exec` finds the first offset at which the pattern matches. */
  lemma {:induction false} ExecFromFirst(g: Pattern, s: string, from: nat, at: nat)
    requires from <= at <= |s| && MatchAt(g, s[at..]).Some?
    requires forall q :: from <= q < at ==> MatchAt(g, s[q..]).None?
    ensures ExecFrom(g, s, from) == Some(Match(at, MatchAt(g, s[at..]).value.0))
    decreases at - from
  {
    if from < at {
      ExecFromFirst(g, s, from + 1, at);
    }
  }
}
