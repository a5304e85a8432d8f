# Mapped expressions of the template engine, in Dafny

A template holds mapped expressions such as `&{user.name}`,
`&{*(trim) user.email ? "yes" : "no"}` or `&{#items}`. The class
`MappedExpression` (`src/entity/mapped-expression.ts`) receives one candidate
`&{...}` that the candidate regex found in a template. Its constructor does
three things:

- **Classifies** the candidate. It tries the grouped regex of a normal
  expression first, then the regex of an iterated expression. When neither
  matches, it records an "Invalid Syntax" diagnostic.
- **Fills in the fields** from the capture groups:
  - the optional flag `*`;
  - the pipe functions `(f,g)`;
  - the mapped key;
  - the ternary flag `?`;
  - the true and false literals;
  - the start and end offsets.
- **Checks for missing data**, and records a diagnostic when the key or the
  ternary's true outcome is missing.

A static comparator orders expressions by their start offset.

The project has five modules:

- `Grammar` (`grammar.dfy`) models the three regular expressions as sequences
  of slots: a required character, an optional character, a character-class
  run, or an optional delimited group. A deterministic recognizer `MatchAt`
  matches them.
  - `MatchAt` is proved equal to a declarative reading, `Decomposes`, in both
    directions. Under `Decomposes`, every piece lies in its slot's language and
    was taken greedily.
  - `Exec` is JavaScript's unanchored `exec`: the match at the leftmost offset.
- `Patterns` (`patterns.dfy`) holds the three patterns, the capture arrays that
  `exec` returns for them, and how the patterns relate to the candidate regex.
  The patterns are the constants `CandidatePattern` (line 19 of the source),
  `NormalPattern` (line 24) and `IteratedPattern` (line 29). A constant has
  no contract of its own, so the rows of `CandidateMatch`, `NormalText`,
  `IteratedText` and `CandidateExclusive` state what each one matches.
- `JsStrings` (`js_strings.dfy`) models `substring`, with its clamping and
  swapping of bounds, and `split` on one character.
- `MappedExpressions` (`mapped_expression.dfy`) holds the specification and the
  class.
  - `Build` is the specification: classify, extract the fields, check for
    missing data.
  - The class `MappedExpression` has the source's fields. Its constructor and
    private methods update those fields step by step, in the source's order.
  - The constructor is proved to end in the state that `Build` describes. The
    property lemmas are stated about `Build`, and so they hold of every
    constructed instance.
- `ExpressionExamples` (`expression_examples.dfy`) runs whole texts through the
  recognizer, `exec` and `Build`: `&{?}`, `&{user.name}` and `&{#items}`.

`undefined` is `None`, and JavaScript truthiness of a possibly-undefined string
is `Truthy`.

`&{?}` has neither a key nor a true outcome. The ternary check runs last
(lines 186-188) and overwrites the missing-key message, so `&{?}` reports
"Mapped expression declares a ternary operator but couldn't find resulting
value for true outcome". See `TernaryProblemWins` and
`ExpressionExamples.TernaryOnlyReport`.

## Model

| member | source | states |
|---|---|---|
| `Grammar.Token` | src/entity/mapped-expression.ts:24 | One regex element takes a prefix of the text that is in its language and cannot be extended. It fails only when no prefix is in its language. |
| `Grammar.MatchAtSound` | src/entity/mapped-expression.ts:24 | A match of the recognizer splits the matched text into one piece per element. Each piece is in its element's language and was taken greedily. |
| `Grammar.MatchAtComplete` | src/entity/mapped-expression.ts:24 | Any such greedy split is exactly the match the recognizer returns. With `MatchAtSound`, the recognizer and the declarative reading agree on every text. |
| `Grammar.ExecPieces` | src/entity/mapped-expression.ts:107-111 | The groups `exec` returns, put together, are the text at the offset where the match starts. |
| `Grammar.ExecLeftmost` | src/entity/mapped-expression.ts:107-111 | The pattern matches at no offset before the one `exec` returns. When `exec` returns null, it matches at no offset at all. |
| `Grammar.ExecFromFirst` | src/entity/mapped-expression.ts:107-111 | When the pattern first matches at a given offset, `exec` returns that offset and the pieces matched there. |
| `Grammar.ExecFromNone` | src/entity/mapped-expression.ts:107-111 | When the pattern matches at no offset, `exec` returns null. |
| `Patterns.NormalGroups` | src/entity/mapped-expression.ts:107-108 | The array `exec` returns for the grouped regex has 12 entries. Index 0 is the whole match and index 4 the key. Each other group from 2 to 10 is the piece of its optional part, and is undefined when that part took nothing. |
| `Patterns.IteratedGroups` | src/entity/mapped-expression.ts:110-111 | The array `exec` returns for the iterated regex has 4 entries: the whole match at index 0 and the key at index 2. |
| `Patterns.CandidateMatch` | src/entity/mapped-expression.ts:19 | The candidate regex matches exactly when some prefix is `&{`, then characters other than `}` and line terminators, then `}`. It takes the shortest such prefix. |
| `Patterns.NormalText` | src/entity/mapped-expression.ts:24 | A normal match is `&{`, then an inner part with no `}`, line terminator or `#`, then `}`. |
| `Patterns.IteratedText` | src/entity/mapped-expression.ts:29 | An iterated match is `&{#`, a run of key characters, then `}`, and it is a candidate. |
| `Patterns.NormalMatchIsCandidate` | src/entity/mapped-expression.ts:19-24 | Whatever the grouped regex matches is itself a candidate, so the candidate scan never cuts a normal expression short. |
| `Patterns.IteratedMatchIsCandidate` | src/entity/mapped-expression.ts:19-29 | Whatever the iterated regex matches is itself a candidate. |
| `Patterns.NormalExcludesIterated` | src/entity/mapped-expression.ts:24-29 | At any one offset the grouped regex and the iterated regex never both match. |
| `Patterns.NormalMatchEndsCandidate` | src/entity/mapped-expression.ts:19-24 | Inside a candidate, a normal match runs to the candidate's closing `}`. |
| `Patterns.IteratedMatchEndsCandidate` | src/entity/mapped-expression.ts:19-29 | Inside a candidate, an iterated match runs to the candidate's closing `}`. |
| `Patterns.CandidateExclusive` | src/entity/mapped-expression.ts:106-122 | On a candidate, when the grouped regex finds a match anywhere in the text, the iterated regex finds none anywhere. The two grammars are mutually exclusive on the whole candidate, not only at one offset. |
| `JsStrings.Split` | src/entity/mapped-expression.ts:173-175 | `split(",")` returns at least one part. Joining the parts with the separator gives back the string, and no part contains the separator. |
| `JsStrings.SplitJoin` | src/entity/mapped-expression.ts:173-175 | `split` undoes a join of parts that do not contain the separator. |
| `JsStrings.Substring` | src/entity/mapped-expression.ts:148-151 | With both bounds inside the string, `substring` is the slice between them, in whichever order they are given. The result is never longer than the string. |
| `JsStrings.SubstringBounds` | src/entity/mapped-expression.ts:148-151 | Bounds outside the string act as its ends, and swapping the two bounds gives the same result. |
| `JsStrings.SubstringStripsEnds` | src/entity/mapped-expression.ts:147-152 | On a string of two or more characters, `substring(1, length - 1)` drops exactly the first and last characters. On a shorter string it returns the string unchanged. |
| `MappedExpressions.Classify` | src/entity/mapped-expression.ts:106-122 | A normal classification carries captures of the shapes their groups allow. An iterated one carries a key made of key characters. |
| `MappedExpressions.ExecNormal` | src/entity/mapped-expression.ts:107-108 | The grouped regex's `exec` returns a 12-entry array exactly when the normal pattern matches somewhere in the text. |
| `MappedExpressions.ExecIterated` | src/entity/mapped-expression.ts:110-111 | The iterated regex's `exec` returns a 4-entry array exactly when the iterated pattern matches somewhere in the text. |
| `MappedExpressions.ParsePipeFunctions` | src/entity/mapped-expression.ts:173-175 | The names, joined by commas, are the text between the first and last characters. No name contains a comma. |
| `MappedExpressions.MappedExpression.constructor` | src/entity/mapped-expression.ts:90-100 | After the constructor's steps, the instance is the state `Build` gives for the candidate. |
| `MappedExpressions.MappedExpression.CheckValidSyntax` | src/entity/mapped-expression.ts:106-122 | Returns the normal groups when the grouped regex matches, and otherwise the iterated groups or null. It sets `isIterated` to false or true, or records "Invalid Syntax" at the located line and column. It changes nothing else. |
| `MappedExpressions.MappedExpression.ParseNormalExpr` | src/entity/mapped-expression.ts:129-156 | The new state is the old state with the optional flag, pipe functions, key, ternary fields and span taken from the groups. |
| `MappedExpressions.MappedExpression.ParseIteratedExpr` | src/entity/mapped-expression.ts:163-167 | The new state is the old state with the key from group 2 and the span of the candidate. |
| `MappedExpressions.MappedExpression.CheckMissingData` | src/entity/mapped-expression.ts:181-193 | The new state is the old state plus the diagnostic that the missing-data rule gives, when there is one. |
| `MappedExpressions.MappedExpression.CompareExpr` | src/entity/mapped-expression.ts:200-208 | Returns -1 exactly when both starts are defined and the first is smaller, and 1 exactly when both are defined and the first is larger. Otherwise it returns 0. |
| `MappedExpressions.Build` | src/entity/mapped-expression.ts:90-100 | The state the constructor builds. It is unclassified exactly when neither regex matches, and it then carries a diagnostic and no offsets. An expression without a diagnostic is classified and has a truthy key. |
| `MappedExpressions.NormalGroupsMeaning` | src/entity/mapped-expression.ts:24 | The `exec` groups of a normal match: group 2 is `*`, truthy exactly when captured; group 3 is the pipe list; group 4 is the key; group 5 is `?`; groups 6, 7, 9 and 10 are the literals. |
| `MappedExpressions.OutcomeAgrees` | src/entity/mapped-expression.ts:139-152 | JavaScript's or-operator on the two literal groups, followed by `substring(1, length - 1)`, gives the preferred literal without its quotes. |
| `MappedExpressions.NormalStepsBuild` | src/entity/mapped-expression.ts:90-100 | On a normal match, `parseNormalExpr` and then `checkMissingData` end in `Build`'s state. |
| `MappedExpressions.IteratedStepsBuild` | src/entity/mapped-expression.ts:90-100 | On an iterated match, `parseIteratedExpr` and then `checkMissingData` end in `Build`'s state. |
| `MappedExpressions.MissingDataKeepsFields` | src/entity/mapped-expression.ts:181-193 | The missing-data check changes no field except the diagnostic. |
| `MappedExpressions.ClassificationOrder` | src/entity/mapped-expression.ts:106-122 | An expression is normal exactly when the grouped regex matches. It is iterated exactly when only the iterated regex matches, and unclassified exactly when neither matches. At one offset the two patterns never both match. On a candidate, it is iterated exactly when the iterated regex matches. |
| `MappedExpressions.InvalidSyntax` | src/entity/mapped-expression.ts:112-114 | "Invalid Syntax" is recorded exactly when neither regex matches. In that case no other field is set. |
| `MappedExpressions.IteratedExpression` | src/entity/mapped-expression.ts:163-167 | An iterated expression holds the key written between `&{#` and `}`, made of key characters. It has no pipe functions, ternary or optional flag, and spans the candidate. It is faulty exactly when the key is empty, and then the problem is the missing key. |
| `MappedExpressions.OptionalIffStar` | src/entity/mapped-expression.ts:130-132 | `isOptional` is true exactly when the grouped regex captured `*`. |
| `MappedExpressions.PipeFunctionsOfGroup` | src/entity/mapped-expression.ts:133-135 | Pipe functions are set exactly when the pipe group was captured. The group is `(` + the names joined by commas + `)`, and each name is made of letters, digits and `_`. |
| `MappedExpressions.PipeFunctionsExamples` | src/entity/mapped-expression.ts:173-175 | `(trim,upper,lower)` gives `["trim", "upper", "lower"]`, and `()` gives one empty name. |
| `MappedExpressions.TernaryFlag` | src/entity/mapped-expression.ts:137-138 | `isTernary` is true exactly when `?` was captured. Without it, neither outcome is set. |
| `MappedExpressions.TernaryLiterals` | src/entity/mapped-expression.ts:138-153 | With `?`, each outcome comes from the double-quoted literal when there is one, and otherwise from the single-quoted one. The quotes are stripped, and the outcome is made of literal characters. With neither literal, the outcome is undefined. |
| `MappedExpressions.Span` | src/entity/mapped-expression.ts:154-155 | A classified expression starts at the candidate's offset and ends at that offset plus the candidate's length, so its start is less than its end. An unclassified one has neither offset. |
| `MappedExpressions.MissingDataReport` | src/entity/mapped-expression.ts:181-193 | A classified expression keeps its extracted fields. It gets the true-outcome problem when it is a ternary without a truthy true outcome, and otherwise the key problem when the key is not truthy. Otherwise it gets no diagnostic. |
| `MappedExpressions.TernaryProblemWins` | src/entity/mapped-expression.ts:183-188 | A `?` with neither true literal reports the missing true outcome, even when the key is missing too. |
| `MappedExpressions.ValidHasKey` | src/entity/mapped-expression.ts:181-193 | An expression without a diagnostic has a non-empty key of key characters and both offsets. When it is a ternary, it also has a non-empty true outcome. |
| `MappedExpressions.CompareAntisymmetric` | src/entity/mapped-expression.ts:200-208 | Swapping the two expressions negates the comparison. |
| `MappedExpressions.CompareDefinedStarts` | src/entity/mapped-expression.ts:200-208 | When the starts are defined, the comparison is 0 exactly for equal starts, and "not greater" is transitive. |
| `MappedExpressions.CompareUndefinedStart` | src/entity/mapped-expression.ts:200-208 | An expression whose start is undefined compares 0 with every other expression, in either order. |
| `MappedExpressions.CompareEqualNotTransitive` | src/entity/mapped-expression.ts:200-208 | Starts 1 and 2 both compare equal to an undefined start but not to each other, so "equal" is not transitive. |
| `ExpressionExamples.TernaryOnlyMatch` | src/entity/mapped-expression.ts:24 | The grouped regex takes `&{?}` whole: `&`, `{`, `?` in group 5, `}`, and nothing in every other group. |
| `ExpressionExamples.TernaryOnlyGroups` | src/entity/mapped-expression.ts:107-108 | `exec` on `&{?}` returns a match whose group 5 is `?` and whose true-literal groups 6 and 7 are undefined. |
| `ExpressionExamples.TernaryOnlyReport` | src/entity/mapped-expression.ts:181-193 | `&{?}` reports the missing true outcome, not the missing key. |
| `ExpressionExamples.UserNameMatch` | src/entity/mapped-expression.ts:24 | The grouped regex takes `&{user.name}` whole, with `user.name` in the key group and nothing in the optional groups. |
| `ExpressionExamples.UserNameBuild` | src/entity/mapped-expression.ts:90-167 | `&{user.name}` gives a normal, non-ternary, non-optional expression with key `user.name`, no pipe functions, offsets 0 and 12, and no diagnostic. |
| `ExpressionExamples.ItemsMatch` | src/entity/mapped-expression.ts:29 | The iterated regex takes `&{#items}` whole, with `items` as the key. |
| `ExpressionExamples.ItemsNotNormal` | src/entity/mapped-expression.ts:24 | The grouped regex matches `&{#items}` at no offset. |
| `ExpressionExamples.ItemsBuild` | src/entity/mapped-expression.ts:90-167 | `&{#items}` gives an iterated expression with key `items`, offsets 0 and 9, no other field and no diagnostic. |

## Left out

- The line and column locator of the shared utility library is not part of
  this model. It is the parameter `locate: Locator` of the constructor and
  of the diagnostic steps.
- The JavaScript regular-expression engine is not modelled. Each regex is a
  slot pattern, matched by a recognizer that does not backtrack. This agrees
  with the backtracking engine on these patterns, by an argument in words that
  is not proved:
  - The engine tries each optional group before skipping it and each greedy
    run at its longest first. The recognizer makes those same first choices
    and keeps them.
  - Before `?`, no character that one element takes or leaves can be taken
    by a later element instead, except spaces between empty optional groups.
    Those spaces are never captured. So backtracking there never turns a
    failure into a match.
  - After `?`, the literals and `:` must fit, in order, into the slot
    sequence `" ' : " '`. The double-quoted true and false literals both
    start with `"`, and the single-quoted ones with `'`, so a literal could
    go to either of two slots. Putting each one in the earliest slot that
    fits succeeds whenever any placement does. That earliest placement is
    also the engine's first choice, so the captures agree.
  - The lazy key run `*?` ends where the next element can start, which is
    never a key character, so it takes the whole run.
  - The lazy runs inside delimited groups stop at the first closing
    character. Their character classes do not contain that character.
- The scan of a whole template with the global candidate regex (the
  `lastIndex` loop in the caller) is not modelled. The constructor receives
  the candidate as a `FoundExpr`: its text, its offset and the template.
  `Patterns.CandidateMatch` states what one candidate is.
- The public getters (lines 210-254) only return fields. `State()` exposes the
  same values.
- The `Array.prototype.sort` that uses `compareExpr` is not modelled. Only
  the comparator is.
- Offsets are unbounded naturals, where JavaScript uses doubles. String
  lengths count characters, where JavaScript counts UTF-16 code units.
- MappedExpressions.MappedExpression.ParseNormalExpr: the two ternary
  outcomes are assembled in local variables and written to their fields
  once. The source rewrites the fields several times. Nothing reads them in
  between, so the final state is the same.
