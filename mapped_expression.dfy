/**
 * A mapped expression `&{...}` of the template engine: how a candidate found
 * in a template is classified as a normal expression, an iterated one or an
 * invalid one, the fields a valid one carries, the diagnostic a faulty one
 * carries, and the order of expressions by position.
 *
 * `Build` is the specification, a pipeline of pure functions (classify,
 * extract the fields, check for missing data). The class `MappedExpression`
 * follows the source: its constructor and private methods update the fields
 * step by step, and the constructor is proved to end in the state `Build`
 * describes.
 */
module MappedExpressions {
  import opened Grammar
  import opened Patterns
  import opened JsStrings

  const InvalidSyntaxProblem := "Invalid Syntax"
  const MissingKeyProblem := "Didn't find a mappedKey in the mapped expression"
  const MissingTernaryTrueProblem :=
    "Mapped expression declares a ternary operator but couldn't find resulting value for true outcome"

  /** The debugging record of a faulty expression. */
  datatype Diagnostic = Diagnostic(expr: string, lineNum: int, colNum: int, problem: string)

  /** What the candidate scan hands to the constructor: the matched text,
      the offset where it starts and the whole template it was found in. */
  datatype FoundExpr = FoundExpr(text: string, index: nat, input: string)

  /** The line/column locator of the common library: (text, offset) to a
      (line, column) pair. Its internals are not part of this model. */
  type Locator = (string, nat) -> (int, int)

  /** JavaScript truthiness of a string that may be `undefined`. */
  predicate Truthy(v: Option<string>) {
    v.Some? && v.value != []
  }

  /** Everything an instance exposes; None stands for `undefined`. */
  datatype ExprState = ExprState(
    startIndex: Option<nat>,
    endIndex: Option<nat>,
    pipeFunctions: Option<seq<string>>,
    mappedKey: Option<string>,
    isTernary: Option<bool>,
    ternaryTrue: Option<string>,
    ternaryFalse: Option<string>,
    isOptional: bool,
    isIterated: Option<bool>,
    invalidExprMsg: Option<Diagnostic>)

  /** A new instance before the constructor body runs: only `isOptional`
      has an initializer. */
  const Unset := ExprState(None, None, None, None, None, None, None, false, None, None)

  /* ---------------- Specification ---------------- */

  /** The captures of a normal match, by meaning; None is an optional group
      that took nothing. Literals and the pipe list keep their delimiters. */
  datatype NormalCaptures = NormalCaptures(
    optional: bool,
    pipes: Option<string>,
    key: string,
    ternary: bool,
    trueDouble: Option<string>,
    trueSingle: Option<string>,
    colon: bool,
    falseDouble: Option<string>,
    falseSingle: Option<string>)

  function CapturesOf(ps: seq<string>): NormalCaptures
    requires |ps| == |NormalPattern|
  {
    NormalCaptures(ps[2] == "*", Captured(ps[4]), ps[6], ps[8] == "?",
                   Captured(ps[10]), Captured(ps[12]), ps[14] == ":",
                   Captured(ps[16]), Captured(ps[18]))
  }

  /** Every capture has the shape its group allows. */
  predicate WellFormed(c: NormalCaptures) {
    (c.pipes.Some? ==> c.pipes.value != [] && InSlot(PipeList, c.pipes.value)) &&
    InSlot(Key, c.key) &&
    (c.trueDouble.Some? ==> c.trueDouble.value != [] && InSlot(DoubleQuoted, c.trueDouble.value)) &&
    (c.trueSingle.Some? ==> c.trueSingle.value != [] && InSlot(SingleQuoted, c.trueSingle.value)) &&
    (c.falseDouble.Some? ==> c.falseDouble.value != [] && InSlot(DoubleQuoted, c.falseDouble.value)) &&
    (c.falseSingle.Some? ==> c.falseSingle.value != [] && InSlot(SingleQuoted, c.falseSingle.value))
  }

  datatype Classification = Normal(caps: NormalCaptures) | Iterated(key: string) | Invalid

  /** The normal pattern is tried first, the iterated one only when it fails. */
  function Classify(text: string): (r: Classification)
    ensures r.Normal? ==> WellFormed(r.caps)
    ensures r.Iterated? ==> InSlot(Key, r.key)
  {
    match Exec(NormalPattern, text)
    case Some(m) =>
      ExecPieces(NormalPattern, text);
      CapturesWellFormed(m.pieces);
      Normal(CapturesOf(m.pieces))
    case None =>
      match Exec(IteratedPattern, text)
      case Some(m) =>
        ExecPieces(IteratedPattern, text);
        Iterated(m.pieces[3])
      case None => Invalid
  }

  /** A quoted literal without its quotes. */
  function Unquote(q: string): (r: string)
    requires |q| >= 2
    ensures [q[0]] + r + [q[|q| - 1]] == q
  {
    q[1..|q| - 1]
  }

  /** One ternary outcome: the double-quoted literal when there is one,
      otherwise the single-quoted one, without its quotes. */
  function OutcomeLiteral(double: Option<string>, single: Option<string>): Option<string>
    requires double.Some? ==> |double.value| >= 2
    requires single.Some? ==> |single.value| >= 2
  {
    if double.Some? then Some(Unquote(double.value))
    else if single.Some? then Some(Unquote(single.value))
    else None
  }

  /** The fields a valid expression carries before the missing-data check. */
  function Fields(found: FoundExpr, cls: Classification): (r: ExprState)
    requires cls.Normal? ==> WellFormed(cls.caps)
    ensures !cls.Invalid? ==> r.startIndex == Some(found.index) && r.endIndex.Some? && r.endIndex.value == found.index + |found.text|
  {
    var located := Unset.(startIndex := Some(found.index), endIndex := Some(found.index + |found.text|));
    match cls
    case Invalid => Unset
    case Iterated(key) => located.(isIterated := Some(true), mappedKey := Some(key))
    case Normal(c) =>
      located.(
        isIterated := Some(false),
        isOptional := c.optional,
        pipeFunctions := if c.pipes.Some? then Some(Split(Unquote(c.pipes.value), ',')) else None,
        mappedKey := Some(c.key),
        isTernary := Some(c.ternary),
        ternaryTrue := if c.ternary then OutcomeLiteral(c.trueDouble, c.trueSingle) else None,
        ternaryFalse := if c.ternary then OutcomeLiteral(c.falseDouble, c.falseSingle) else None)
  }

  /** What the missing-data check reports: a ternary without a true outcome
      wins over a missing key. */
  function MissingData(st: ExprState): Option<string> {
    if st.isTernary == Some(true) && !Truthy(st.ternaryTrue) then Some(MissingTernaryTrueProblem)
    else if !Truthy(st.mappedKey) then Some(MissingKeyProblem)
    else None
  }

  function Located(found: FoundExpr, locate: Locator, problem: string): Diagnostic {
    var lineCol := locate(found.input, found.index);
    Diagnostic(found.text, lineCol.0, lineCol.1, problem)
  }

  /** The instance the constructor builds from a candidate. */
  function Build(found: FoundExpr, locate: Locator): (r: ExprState)
    ensures r.isIterated.None? <==> Classify(found.text).Invalid?
    ensures r.isIterated.None? ==> r.invalidExprMsg.Some? && r.startIndex.None?
    ensures r.invalidExprMsg.None? ==> Truthy(r.mappedKey) && r.isIterated.Some?
  {
    var cls := Classify(found.text);
    if cls.Invalid? then
      Unset.(invalidExprMsg := Some(Located(found, locate, InvalidSyntaxProblem)))
    else
      AfterMissingData(Fields(found, cls), found, locate)
  }

  /* ---------------- The source's steps ---------------- */

  /** `regex.exec(text)` for the normal pattern. */
  function ExecNormal(text: string): (r: Option<seq<Option<string>>>)
    ensures r.Some? <==> Exec(NormalPattern, text).Some?
    ensures r.Some? ==> |r.value| == 12
  {
    match Exec(NormalPattern, text)
    case Some(m) => Some(NormalGroups(m.pieces))
    case None => None
  }

  /** `regex.exec(text)` for the iterated pattern. */
  function ExecIterated(text: string): (r: Option<seq<Option<string>>>)
    ensures r.Some? <==> Exec(IteratedPattern, text).Some?
    ensures r.Some? ==> |r.value| == 4
  {
    match Exec(IteratedPattern, text)
    case Some(m) => Some(IteratedGroups(m.pieces))
    case None => None
  }

  /** `parsePipeFunctions`: the text between the parentheses, split on commas. */
  function ParsePipeFunctions(functions: string): (r: seq<string>)
    ensures |r| >= 1 && Join(r, ',') == Substring(functions, 1, |functions| - 1)
    ensures forall i :: 0 <= i < |r| ==> ',' !in r[i]
  {
    Split(Substring(functions, 1, |functions| - 1), ',')
  }

  /** `a || b` on strings that may be `undefined`. */
  function OrElse(a: Option<string>, b: Option<string>): Option<string> {
    if Truthy(a) then a else b
  }

  /** `if (v) { v = v.substring(1, v.length - 1); }` */
  function StripIfTruthy(v: Option<string>): Option<string> {
    if Truthy(v) then Some(Substring(v.value, 1, |v.value| - 1)) else v
  }

  /** The state `parseNormalExpr` leaves, given the groups of the match. */
  function AfterParseNormal(st: ExprState, g: seq<Option<string>>, found: FoundExpr): ExprState
    requires |g| == 12
  {
    var ternary := g[5] == Some("?");
    st.(
      isOptional := st.isOptional || Truthy(g[2]),
      pipeFunctions := if Truthy(g[3]) then Some(ParsePipeFunctions(g[3].value)) else st.pipeFunctions,
      mappedKey := g[4],
      isTernary := Some(ternary),
      ternaryTrue := if ternary then StripIfTruthy(OrElse(g[6], g[7])) else st.ternaryTrue,
      ternaryFalse := if ternary then StripIfTruthy(OrElse(g[9], g[10])) else st.ternaryFalse,
      startIndex := Some(found.index),
      endIndex := Some(found.index + |found.text|))
  }

  /** The state `parseIteratedExpr` leaves, given the groups of the match. */
  function AfterParseIterated(st: ExprState, g: seq<Option<string>>, found: FoundExpr): ExprState
    requires |g| == 4
  {
    st.(mappedKey := g[2], startIndex := Some(found.index), endIndex := Some(found.index + |found.text|))
  }

  /** The state `checkMissingData` leaves. */
  function AfterMissingData(st: ExprState, found: FoundExpr, locate: Locator): ExprState {
    match MissingData(st)
    case None => st
    case Some(problem) => st.(invalidExprMsg := Some(Located(found, locate, problem)))
  }

  class MappedExpression {
    var startIndex: Option<nat>
    var endIndex: Option<nat>
    var pipeFunctions: Option<seq<string>>
    var mappedKey: Option<string>
    var isTernary: Option<bool>
    var ternaryTrue: Option<string>
    var ternaryFalse: Option<string>
    var isOptional: bool
    var isIterated: Option<bool>
    var invalidExprMsg: Option<Diagnostic>

    function State(): ExprState
      reads this
    {
      ExprState(startIndex, endIndex, pipeFunctions, mappedKey, isTernary,
                ternaryTrue, ternaryFalse, isOptional, isIterated, invalidExprMsg)
    }

    /** Classifies the candidate, extracts its fields and checks for missing data. */
    constructor (foundExpr: FoundExpr, locate: Locator)
      ensures State() == Build(foundExpr, locate)
    {
      startIndex, endIndex := None, None;
      pipeFunctions, mappedKey := None, None;
      isTernary, ternaryTrue, ternaryFalse := None, None, None;
      isOptional := false;
      isIterated, invalidExprMsg := None, None;
      new;
      var capturedGroups := CheckValidSyntax(foundExpr, locate);
      if capturedGroups.Some? {
        if isIterated == Some(true) {
          IteratedStepsBuild(foundExpr, locate);
          ParseIteratedExpr(capturedGroups.value, foundExpr);
        } else {
          NormalStepsBuild(foundExpr, locate);
          ParseNormalExpr(capturedGroups.value, foundExpr);
        }
        CheckMissingData(foundExpr, locate);
      }
    }

    /** Tries the normal pattern, then the iterated one; records which
        matched, or an "Invalid Syntax" diagnostic when neither did. */
    method CheckValidSyntax(foundExpr: FoundExpr, locate: Locator) returns (resultVal: Option<seq<Option<string>>>)
      modifies this
      ensures resultVal == if ExecNormal(foundExpr.text).Some? then ExecNormal(foundExpr.text) else ExecIterated(foundExpr.text)
      ensures State() ==
        if ExecNormal(foundExpr.text).Some? then old(State()).(isIterated := Some(false))
        else if ExecIterated(foundExpr.text).Some? then old(State()).(isIterated := Some(true))
        else old(State()).(invalidExprMsg := Some(Located(foundExpr, locate, InvalidSyntaxProblem)))
    {
      resultVal := ExecNormal(foundExpr.text);
      if resultVal.None? {
        resultVal := ExecIterated(foundExpr.text);
        if resultVal.None? {
          var lineCol := locate(foundExpr.input, foundExpr.index);
          invalidExprMsg := Some(Diagnostic(foundExpr.text, lineCol.0, lineCol.1, InvalidSyntaxProblem));
        } else {
          isIterated := Some(true);
        }
      } else {
        isIterated := Some(false);
      }
    }

    /** Fills the fields of a normal expression from the groups of its match. */
    method ParseNormalExpr(capturedGroups: seq<Option<string>>, foundExpr: FoundExpr)
      requires |capturedGroups| == 12
      modifies this
      ensures State() == AfterParseNormal(old(State()), capturedGroups, foundExpr)
    {
      ghost var target := AfterParseNormal(State(), capturedGroups, foundExpr);
      if Truthy(capturedGroups[2]) {
        isOptional := true;
      }
      if Truthy(capturedGroups[3]) {
        pipeFunctions := Some(ParsePipeFunctions(capturedGroups[3].value));
      }
      assert isOptional == target.isOptional && pipeFunctions == target.pipeFunctions;
      mappedKey := capturedGroups[4];
      isTernary := Some(capturedGroups[5] == Some("?"));
      if isTernary == Some(true) {
        // The outcomes are assembled in locals and stored once; nothing
        // reads `ternaryTrue` or `ternaryFalse` in between.
        var outcomeTrue := capturedGroups[6];
        if !Truthy(outcomeTrue) {
          outcomeTrue := capturedGroups[7];
        }
        var outcomeFalse := capturedGroups[9];
        if !Truthy(outcomeFalse) {
          outcomeFalse := capturedGroups[10];
        }
        assert outcomeTrue == OrElse(capturedGroups[6], capturedGroups[7]);
        assert outcomeFalse == OrElse(capturedGroups[9], capturedGroups[10]);
        if Truthy(outcomeTrue) {
          outcomeTrue := Some(Substring(outcomeTrue.value, 1, |outcomeTrue.value| - 1));
        }
        if Truthy(outcomeFalse) {
          outcomeFalse := Some(Substring(outcomeFalse.value, 1, |outcomeFalse.value| - 1));
        }
        assert outcomeTrue == target.ternaryTrue && outcomeFalse == target.ternaryFalse;
        ternaryTrue, ternaryFalse := outcomeTrue, outcomeFalse;
      }
      assert ternaryTrue == target.ternaryTrue && ternaryFalse == target.ternaryFalse;
      startIndex := Some(foundExpr.index);
      endIndex := Some(foundExpr.index + |foundExpr.text|);
      assert State() == target;
    }

    /** Fills the key and the span of an iterated expression. */
    method ParseIteratedExpr(capturedGroups: seq<Option<string>>, foundExpr: FoundExpr)
      requires |capturedGroups| == 4
      modifies this
      ensures State() == AfterParseIterated(old(State()), capturedGroups, foundExpr)
    {
      mappedKey := capturedGroups[2];
      startIndex := Some(foundExpr.index);
      endIndex := Some(foundExpr.index + |foundExpr.text|);
    }

    /** Flags a missing key or a ternary without a true outcome; the second
        problem, checked last, overwrites the first. */
    method CheckMissingData(foundExpr: FoundExpr, locate: Locator)
      modifies this
      ensures State() == AfterMissingData(old(State()), foundExpr, locate)
    {
      var problem: Option<string> := None;
      if !Truthy(mappedKey) {
        problem := Some(MissingKeyProblem);
      }
      if isTernary == Some(true) && !Truthy(ternaryTrue) {
        problem := Some(MissingTernaryTrueProblem);
      }
      if problem.Some? {
        var lineCol := locate(foundExpr.input, foundExpr.index);
        invalidExprMsg := Some(Diagnostic(foundExpr.text, lineCol.0, lineCol.1, problem.value));
      }
    }

    /** `compareExpr`: orders expressions by start offset, for a sort. */
    static function CompareExpr(expr1: MappedExpression, expr2: MappedExpression): (r: int)
      reads expr1, expr2
      ensures r == -1 <==> expr1.startIndex.Some? && expr2.startIndex.Some? && expr1.startIndex.value < expr2.startIndex.value
      ensures r == 1 <==> expr1.startIndex.Some? && expr2.startIndex.Some? && expr1.startIndex.value > expr2.startIndex.value
      ensures r == 0 || r == -1 || r == 1
    {
      CompareStart(expr1.startIndex, expr2.startIndex)
    }
  }

  /** The comparison of two start offsets, where `undefined` compares
      neither less nor greater than anything. */
  function CompareStart(a: Option<nat>, b: Option<nat>): int {
    if a.Some? && b.Some? && a.value < b.value then -1
    else if a.Some? && b.Some? && a.value > b.value then 1
    else 0
  }

  /* ---------------- The steps meet the specification ---------------- */

  /** On a literal capture, `||` then `substring(1, length - 1)` is the
      preferred literal without its quotes. */
  lemma OutcomeAgrees(double: Option<string>, single: Option<string>)
    requires double.Some? ==> |double.value| >= 2
    requires single.Some? ==> |single.value| >= 2
    ensures StripIfTruthy(OrElse(double, single)) == OutcomeLiteral(double, single)
  {
    if double.Some? {
      SubstringStripsEnds(double.value);
    } else if single.Some? {
      SubstringStripsEnds(single.value);
    }
  }

  /** The constructor's steps on a normal match end in `Build`'s state. */
  lemma NormalStepsBuild(found: FoundExpr, locate: Locator)
    requires ExecNormal(found.text).Some?
    ensures |ExecNormal(found.text).value| == 12
    ensures AfterMissingData(AfterParseNormal(Unset.(isIterated := Some(false)), ExecNormal(found.text).value, found),
                             found, locate) == Build(found, locate)
  {
    var ps := Exec(NormalPattern, found.text).value.pieces;
    NormalClassified(found.text);
    BuildOfValid(found, locate);
    NormalGroupsFields(found, ps);
  }

  lemma NormalClassified(text: string)
    requires ExecNormal(text).Some?
    ensures var ps := Exec(NormalPattern, text).value.pieces;
      |ps| == |NormalPattern| && (forall i :: 0 <= i < |ps| ==> InSlot(NormalPattern[i], ps[i])) &&
      ExecNormal(text).value == NormalGroups(ps) && Classify(text) == Normal(CapturesOf(ps))
  {
    ExecPieces(NormalPattern, text);
  }

  /** Reading the fields off the `exec` groups gives the fields `Fields`
      reads off the captures. */
  lemma NormalGroupsFields(found: FoundExpr, ps: seq<string>)
    requires |ps| == |NormalPattern|
    requires forall i :: 0 <= i < |ps| ==> InSlot(NormalPattern[i], ps[i])
    ensures WellFormed(CapturesOf(ps))
    ensures AfterParseNormal(Unset.(isIterated := Some(false)), NormalGroups(ps), found) == Fields(found, Normal(CapturesOf(ps)))
  {
    var c := CapturesOf(ps);
    CapturesWellFormed(ps);
    NormalGroupsMeaning(ps);
    var g := NormalGroups(ps);
    var a := AfterParseNormal(Unset.(isIterated := Some(false)), g, found);
    var b := Fields(found, Normal(c));
    assert a.isOptional == b.isOptional;
    if c.pipes.Some? {
      SubstringStripsEnds(c.pipes.value);
      assert Substring(c.pipes.value, 1, |c.pipes.value| - 1) == Unquote(c.pipes.value);
    }
    assert a.pipeFunctions == b.pipeFunctions;
    OutcomeAgrees(c.trueDouble, c.trueSingle);
    OutcomeAgrees(c.falseDouble, c.falseSingle);
    assert a.ternaryTrue == b.ternaryTrue;
    assert a.ternaryFalse == b.ternaryFalse;
    assert a.mappedKey == b.mappedKey && a.isTernary == b.isTernary && a.isIterated == b.isIterated;
    assert a.startIndex == b.startIndex && a.endIndex == b.endIndex && a.invalidExprMsg == b.invalidExprMsg;
  }

  /** The captures of a normal match have the shapes their groups allow. */
  lemma CapturesWellFormed(ps: seq<string>)
    requires |ps| == |NormalPattern|
    requires forall i :: 0 <= i < |ps| ==> InSlot(NormalPattern[i], ps[i])
    ensures WellFormed(CapturesOf(ps))
  {
    NormalSlots();
    assert InSlot(NormalPattern[4], ps[4]);
    assert InSlot(NormalPattern[6], ps[6]);
    assert InSlot(NormalPattern[10], ps[10]) && InSlot(NormalPattern[12], ps[12]);
    assert InSlot(NormalPattern[16], ps[16]) && InSlot(NormalPattern[18], ps[18]);
  }

  /** What each `exec` group of a normal match means. */
  lemma NormalGroupsMeaning(ps: seq<string>)
    requires |ps| == |NormalPattern|
    requires forall i :: 0 <= i < |ps| ==> InSlot(NormalPattern[i], ps[i])
    ensures var g := NormalGroups(ps);
            var c := CapturesOf(ps);
            (g[2] == Some("*") <==> c.optional) && (Truthy(g[2]) <==> c.optional) && g[3] == c.pipes && g[4] == Some(c.key) &&
            (g[5] == Some("?") <==> c.ternary) && g[6] == c.trueDouble && g[7] == c.trueSingle &&
            g[9] == c.falseDouble && g[10] == c.falseSingle
  {
    assert InSlot(NormalPattern[2], ps[2]);
    assert InSlot(NormalPattern[8], ps[8]);
  }

  /** The constructor's steps on an iterated match end in `Build`'s state. */
  lemma IteratedStepsBuild(found: FoundExpr, locate: Locator)
    requires ExecNormal(found.text).None? && ExecIterated(found.text).Some?
    ensures |ExecIterated(found.text).value| == 4
    ensures AfterMissingData(AfterParseIterated(Unset.(isIterated := Some(true)), ExecIterated(found.text).value, found),
                             found, locate) == Build(found, locate)
  {
    IteratedClassified(found.text);
    BuildOfValid(found, locate);
  }

  lemma IteratedClassified(text: string)
    requires ExecNormal(text).None? && ExecIterated(text).Some?
    ensures var ps := Exec(IteratedPattern, text).value.pieces;
            |ps| == |IteratedPattern| && ExecIterated(text).value[2] == Some(ps[3]) && Classify(text) == Iterated(ps[3])
  {
  }

  /** A valid expression spans its whole candidate. */
  lemma SpanOfValid(found: FoundExpr, locate: Locator)
    requires !Classify(found.text).Invalid?
    ensures Build(found, locate).startIndex == Some(found.index)
    ensures Build(found, locate).endIndex.Some? && Build(found, locate).endIndex.value == found.index + |found.text|
  {
    MissingDataKeepsFields(Fields(found, Classify(found.text)), found, locate);
  }

  /** The missing-data check touches only the diagnostic. */
  lemma MissingDataKeepsFields(st: ExprState, found: FoundExpr, locate: Locator)
    ensures var r := AfterMissingData(st, found, locate);
            r.startIndex == st.startIndex && r.endIndex == st.endIndex &&
            r.pipeFunctions == st.pipeFunctions && r.mappedKey == st.mappedKey &&
            r.isTernary == st.isTernary && r.ternaryTrue == st.ternaryTrue && r.ternaryFalse == st.ternaryFalse &&
            r.isOptional == st.isOptional && r.isIterated == st.isIterated
  {
  }

  /** A valid expression is its fields after the missing-data check. */
  lemma BuildOfValid(found: FoundExpr, locate: Locator)
    requires !Classify(found.text).Invalid?
    ensures Build(found, locate) == AfterMissingData(Fields(found, Classify(found.text)), found, locate)
  {
  }

  /* ---------------- Properties ---------------- */

  /** The normal pattern is tried first: an expression is iterated only when
      the normal pattern finds nothing, and invalid only when neither pattern
      finds anything. At one offset the two patterns never both match, and on
      a candidate the order does not matter: it is iterated exactly when the
      iterated pattern finds a match. */
  lemma ClassificationOrder(found: FoundExpr, locate: Locator)
    ensures Build(found, locate).isIterated == Some(false) <==> Exec(NormalPattern, found.text).Some?
    ensures Build(found, locate).isIterated == Some(true) <==>
              Exec(NormalPattern, found.text).None? && Exec(IteratedPattern, found.text).Some?
    ensures Build(found, locate).isIterated.None? <==>
              Exec(NormalPattern, found.text).None? && Exec(IteratedPattern, found.text).None?
    ensures forall q :: 0 <= q <= |found.text| && MatchAt(NormalPattern, found.text[q..]).Some? ==>
              MatchAt(IteratedPattern, found.text[q..]).None?
    ensures IsCandidate(found.text) ==>
              (Build(found, locate).isIterated == Some(true) <==> Exec(IteratedPattern, found.text).Some?)
  {
    if IsCandidate(found.text) {
      CandidateExclusive(found.text);
    }
    forall q | 0 <= q <= |found.text| && MatchAt(NormalPattern, found.text[q..]).Some?
      ensures MatchAt(IteratedPattern, found.text[q..]).None?
    {
      NormalExcludesIterated(found.text[q..]);
    }
    if !Classify(found.text).Invalid? {
      BuildOfValid(found, locate);
    }
  }

  /** "Invalid Syntax" is reported exactly when neither pattern matches, and
      then no other field is set. */
  lemma InvalidSyntax(found: FoundExpr, locate: Locator)
    ensures Build(found, locate).invalidExprMsg == Some(Located(found, locate, InvalidSyntaxProblem)) <==>
              Exec(NormalPattern, found.text).None? && Exec(IteratedPattern, found.text).None?
    ensures Exec(NormalPattern, found.text).None? && Exec(IteratedPattern, found.text).None? ==>
              Build(found, locate) == Unset.(invalidExprMsg := Some(Located(found, locate, InvalidSyntaxProblem)))
  {
    assert |InvalidSyntaxProblem| < |MissingKeyProblem| && |InvalidSyntaxProblem| < |MissingTernaryTrueProblem|;
    if !Classify(found.text).Invalid? {
      BuildOfValid(found, locate);
    }
  }

  /** An iterated expression `&{#key}` holds the key, which is made of key
      characters and runs up to the `}`, spans the whole candidate and has no
      pipe functions, ternary or optional flag; it is faulty exactly when
      the key is empty. */
  lemma IteratedExpression(found: FoundExpr, locate: Locator)
    requires Exec(NormalPattern, found.text).None? && Exec(IteratedPattern, found.text).Some?
    ensures var st := Build(found, locate);
            var m := Exec(IteratedPattern, found.text).value;
            st.isIterated == Some(true) && st.mappedKey.Some? &&
            "&{#" + st.mappedKey.value + "}" <= found.text[m.index..] &&
            (forall j :: 0 <= j < |st.mappedKey.value| ==> InClass(KeyChars, st.mappedKey.value[j])) &&
            st.pipeFunctions.None? && st.isTernary.None? && st.ternaryTrue.None? && st.ternaryFalse.None? &&
            !st.isOptional &&
            st.startIndex == Some(found.index) && st.endIndex.Some? && st.endIndex.value == found.index + |found.text| &&
            (st.invalidExprMsg.Some? <==> st.mappedKey.value == []) &&
            (st.invalidExprMsg.Some? ==> st.invalidExprMsg == Some(Located(found, locate, MissingKeyProblem)))
  {
    IteratedMatchText(found.text);
    IteratedClassified(found.text);
    BuildOfValid(found, locate);
    SpanOfValid(found, locate);
  }

  /** The text an iterated match covers, read off the key it captured. */
  lemma IteratedMatchText(text: string)
    requires Exec(IteratedPattern, text).Some?
    ensures var m := Exec(IteratedPattern, text).value;
            |m.pieces| == |IteratedPattern| && "&{#" + m.pieces[3] + "}" <= text[m.index..] &&
            forall j :: 0 <= j < |m.pieces[3]| ==> InClass(KeyChars, m.pieces[3][j])
  {
    var m := Exec(IteratedPattern, text).value;
    ExecPieces(IteratedPattern, text);
    IteratedText(m.pieces);
    var c := Concat(m.pieces);
    assert text[m.index..][..|c|] == text[m.index..m.index + |c|];
  }

  /** `isOptional` is set exactly when the normal pattern captured `*`. */
  lemma OptionalIffStar(found: FoundExpr, locate: Locator)
    ensures Build(found, locate).isOptional <==>
              ExecNormal(found.text).Some? && ExecNormal(found.text).value[2] == Some("*")
  {
    if ExecNormal(found.text).Some? {
      var ps := Exec(NormalPattern, found.text).value.pieces;
      NormalClassified(found.text);
      BuildOfValid(found, locate);
      NormalGroupsMeaning(ps);
    } else if !Classify(found.text).Invalid? {
      BuildOfValid(found, locate);
    }
  }

  /** Pipe functions are set exactly when the pipe group was captured; they
      are the names between its parentheses, in order, each made of letters,
      digits and underscores. */
  lemma PipeFunctionsOfGroup(found: FoundExpr, locate: Locator)
    ensures var st := Build(found, locate);
            var g := ExecNormal(found.text);
            (st.pipeFunctions.Some? <==> g.Some? && g.value[3].Some?) &&
            (st.pipeFunctions.Some? ==>
               g.value[3].value == "(" + Join(st.pipeFunctions.value, ',') + ")" &&
               forall i, j :: 0 <= i < |st.pipeFunctions.value| && 0 <= j < |st.pipeFunctions.value[i]| ==>
                 IsAlnum(st.pipeFunctions.value[i][j]) || st.pipeFunctions.value[i][j] == '_')
  {
    if ExecNormal(found.text).Some? {
      var ps := Exec(NormalPattern, found.text).value.pieces;
      NormalClassified(found.text);
      BuildOfValid(found, locate);
      NormalGroupsMeaning(ps);
      var c := CapturesOf(ps);
      if c.pipes.Some? {
        PipeListShape(c.pipes.value);
      }
    } else if !Classify(found.text).Invalid? {
      BuildOfValid(found, locate);
    }
  }

  /** A captured pipe list is its names, joined by commas, in parentheses. */
  lemma PipeListShape(p: string)
    requires p != [] && InSlot(NormalPattern[4], p)
    ensures var fs := Split(Unquote(p), ',');
            p == "(" + Join(fs, ',') + ")" &&
            forall i, j :: 0 <= i < |fs| && 0 <= j < |fs[i]| ==> IsAlnum(fs[i][j]) || fs[i][j] == '_'
  {
    var inner := Unquote(p);
    var fs := Split(inner, ',');
    forall i, j | 0 <= i < |fs| && 0 <= j < |fs[i]|
      ensures IsAlnum(fs[i][j]) || fs[i][j] == '_'
    {
      JoinHolds(fs, ',', i, j);
      var k :| 0 <= k < |inner| && inner[k] == fs[i][j];
      assert p[k + 1] == inner[k];
    }
  }

  /** The two examples of the pipe list: three names, and an empty list that
      gives one empty name. */
  lemma PipeFunctionsExamples()
    ensures ParsePipeFunctions("(trim,upper,lower)") == ["trim", "upper", "lower"]
    ensures ParsePipeFunctions("()") == [""]
  {
    var list := "(trim,upper,lower)";
    assert |list| == 18 && list[1..17] == "trim,upper,lower";
    assert Substring(list, 1, 17) == "trim,upper,lower";
    var names := ["trim", "upper", "lower"];
    assert Join(names[2..], ',') == "lower";
    assert Join(names[1..], ',') == "upper,lower";
    assert Join(names, ',') == "trim,upper,lower";
    SplitJoin(names, ',');
    assert Substring("()", 1, 1) == "";
  }

  /** The ternary flag is set exactly when `?` was captured, and without it
      no outcome is extracted, whatever literals the text holds. */
  lemma TernaryFlag(found: FoundExpr, locate: Locator)
    ensures var st := Build(found, locate);
            var g := ExecNormal(found.text);
            (st.isTernary == Some(true) <==> g.Some? && g.value[5] == Some("?")) &&
            (st.isTernary != Some(true) ==> st.ternaryTrue.None? && st.ternaryFalse.None?)
  {
    if ExecNormal(found.text).Some? {
      var ps := Exec(NormalPattern, found.text).value.pieces;
      NormalClassified(found.text);
      BuildOfValid(found, locate);
      NormalGroupsMeaning(ps);
    } else if !Classify(found.text).Invalid? {
      BuildOfValid(found, locate);
    }
  }

  /** What a literal capture turns into: the double-quoted one wins, quotes
      are stripped, and the text between them is made of literal characters. */
  predicate LiteralFrom(v: Option<string>, double: Option<string>, single: Option<string>) {
    (double.Some? ==> v.Some? && double.value == "\"" + v.value + "\"") &&
    (double.None? && single.Some? ==> v.Some? && single.value == "'" + v.value + "'") &&
    (double.None? && single.None? ==> v.None?) &&
    (v.Some? ==> forall j :: 0 <= j < |v.value| ==> InClass(LiteralChars, v.value[j]))
  }

  lemma OutcomeShape(double: Option<string>, single: Option<string>)
    requires double.Some? ==> double.value != [] && InSlot(DoubleQuoted, double.value)
    requires single.Some? ==> single.value != [] && InSlot(SingleQuoted, single.value)
    ensures LiteralFrom(OutcomeLiteral(double, single), double, single)
  {
    var v := OutcomeLiteral(double, single);
    if double.Some? {
      assert double.value == "\"" + v.value + "\"";
      forall j | 0 <= j < |v.value| ensures InClass(LiteralChars, v.value[j]) {
        assert v.value[j] == double.value[j + 1];
      }
    } else if single.Some? {
      assert single.value == "'" + v.value + "'";
      forall j | 0 <= j < |v.value| ensures InClass(LiteralChars, v.value[j]) {
        assert v.value[j] == single.value[j + 1];
      }
    }
  }

  /** With `?` captured, each outcome is the double-quoted literal when there
      is one, otherwise the single-quoted one, without its quotes. */
  lemma TernaryLiterals(found: FoundExpr, locate: Locator)
    requires ExecNormal(found.text).Some? && ExecNormal(found.text).value[5] == Some("?")
    ensures var st := Build(found, locate);
            var g := ExecNormal(found.text).value;
            LiteralFrom(st.ternaryTrue, g[6], g[7]) && LiteralFrom(st.ternaryFalse, g[9], g[10])
  {
    var ps := Exec(NormalPattern, found.text).value.pieces;
    NormalClassified(found.text);
    NormalGroupsMeaning(ps);
    var c := CapturesOf(ps);
    assert WellFormed(c) && c.ternary;
    var st := Fields(found, Normal(c));
    MissingDataKeepsFields(st, found, locate);
    assert st.ternaryTrue == OutcomeLiteral(c.trueDouble, c.trueSingle);
    assert st.ternaryFalse == OutcomeLiteral(c.falseDouble, c.falseSingle);
    OutcomeShape(c.trueDouble, c.trueSingle);
    OutcomeShape(c.falseDouble, c.falseSingle);
  }

  /** The text of a match is never empty. */
  lemma MatchNonEmpty(text: string)
    requires Exec(NormalPattern, text).Some? || Exec(IteratedPattern, text).Some?
    ensures |text| > 0
  {
    var g := if Exec(NormalPattern, text).Some? then NormalPattern else IteratedPattern;
    var m := Exec(g, text).value;
    ExecPieces(g, text);
    assert Concat(m.pieces) == m.pieces[0] + Concat(m.pieces[1..]);
  }

  /** A valid expression spans its whole candidate, so it starts before it
      ends; an invalid one has neither offset. */
  lemma Span(found: FoundExpr, locate: Locator)
    ensures var st := Build(found, locate);
            (st.startIndex.Some? <==> Exec(NormalPattern, found.text).Some? || Exec(IteratedPattern, found.text).Some?) &&
            (st.startIndex.Some? ==>
               st.startIndex == Some(found.index) && st.endIndex.Some? && st.endIndex.value == found.index + |found.text| &&
               st.startIndex.value < st.endIndex.value) &&
            (st.startIndex.None? ==> st.endIndex.None?)
  {
    if !Classify(found.text).Invalid? {
      SpanOfValid(found, locate);
      MatchNonEmpty(found.text);
    }
  }

  /** The missing-data check keeps the extracted fields and adds a
      diagnostic: the missing true outcome of a ternary when there is one,
      else the missing key when the key is empty, else none. */
  lemma MissingDataReport(found: FoundExpr, locate: Locator)
    requires Exec(NormalPattern, found.text).Some? || Exec(IteratedPattern, found.text).Some?
    ensures var st := Build(found, locate);
            var ternaryProblem := st.isTernary == Some(true) && !Truthy(st.ternaryTrue);
            st.(invalidExprMsg := None) == Fields(found, Classify(found.text)) &&
            (ternaryProblem ==> st.invalidExprMsg == Some(Located(found, locate, MissingTernaryTrueProblem))) &&
            (!ternaryProblem && !Truthy(st.mappedKey) ==> st.invalidExprMsg == Some(Located(found, locate, MissingKeyProblem))) &&
            (!ternaryProblem && Truthy(st.mappedKey) ==> st.invalidExprMsg.None?)
  {
    BuildOfValid(found, locate);
  }

  /** A ternary without a true literal is reported as such even when its
      key is missing too (`&{?}`): that check runs last and overwrites the
      missing-key problem. */
  lemma TernaryProblemWins(found: FoundExpr, locate: Locator)
    requires ExecNormal(found.text).Some?
    requires var g := ExecNormal(found.text).value; g[5] == Some("?") && g[6].None? && g[7].None?
    ensures Build(found, locate).invalidExprMsg == Some(Located(found, locate, MissingTernaryTrueProblem))
  {
    TernaryFlag(found, locate);
    TernaryLiterals(found, locate);
    MissingDataReport(found, locate);
  }

  /** An expression without a diagnostic has a non-empty key of key
      characters, both offsets, and a true outcome when it is a ternary. */
  lemma ValidHasKey(found: FoundExpr, locate: Locator)
    requires Build(found, locate).invalidExprMsg.None?
    ensures var st := Build(found, locate);
            st.mappedKey.Some? && st.mappedKey.value != [] &&
            (forall j :: 0 <= j < |st.mappedKey.value| ==> InClass(KeyChars, st.mappedKey.value[j])) &&
            st.isIterated.Some? && st.startIndex.Some? && st.endIndex.Some? &&
            (st.isTernary == Some(true) ==> st.ternaryTrue.Some? && st.ternaryTrue.value != [])
  {
    var cls := Classify(found.text);
    assert !cls.Invalid?;
    BuildOfValid(found, locate);
    if cls.Normal? {
      assert WellFormed(cls.caps);
    }
  }

  /* ---------------- Order ---------------- */

  /** The comparator is antisymmetric. */
  lemma CompareAntisymmetric(e1: MappedExpression, e2: MappedExpression)
    ensures MappedExpression.CompareExpr(e1, e2) == -MappedExpression.CompareExpr(e2, e1)
  {
  }

  /** Among expressions with a start offset the comparator is the order of
      those offsets: 0 exactly for equal starts, and transitive. */
  lemma CompareDefinedStarts(e1: MappedExpression, e2: MappedExpression, e3: MappedExpression)
    requires e1.startIndex.Some? && e2.startIndex.Some? && e3.startIndex.Some?
    ensures MappedExpression.CompareExpr(e1, e2) == 0 <==> e1.startIndex == e2.startIndex
    ensures MappedExpression.CompareExpr(e1, e2) <= 0 && MappedExpression.CompareExpr(e2, e3) <= 0 ==>
              MappedExpression.CompareExpr(e1, e3) <= 0
  {
  }

  /** An expression without a start offset compares equal to every other,
      in either order. */
  lemma CompareUndefinedStart(e1: MappedExpression, e2: MappedExpression)
    requires e1.startIndex.None?
    ensures MappedExpression.CompareExpr(e1, e2) == 0 && MappedExpression.CompareExpr(e2, e1) == 0
  {
  }

  /** So with an undefined start in the list, "equal" is not transitive:
      starts 1 and 2 both compare equal to an undefined one, but not to each
      other. */
  lemma CompareEqualNotTransitive()
    ensures CompareStart(Some(1), None) == 0 && CompareStart(None, Some(2)) == 0
    ensures CompareStart(Some(1), Some(2)) == -1
  {
  }
}
