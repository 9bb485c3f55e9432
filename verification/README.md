# Regular-expression generator and reconstructor, in Dafny

This project models the core of `@environment-safe/regular-expressions`. The core is three pure walkers over a regex token tree:

- **The generator** (`RandomExpression._gen` and `_expand` with their helpers). It interprets the tree and produces one random string the expression matches. The random source is a stream of draws in [0, 1). The state threads three things through the walk:
  - the capture table of the current run;
  - the group numbers assigned so far, which survive from one `generate()` call to the next;
  - the number of draws consumed.
- **The reconstructor** (`reconstruct`, `createAlternate`, `reduceStack`). It renders the tree back to regex source text. It fails on an unknown node type, and on a ROOT or GROUP that has neither `options` nor `stack`.
- **The set writer** (`setChar`, `isSameSet`, `writeSetTokens`, `writeSetToken`) and the **predefined classes** (`sets.mjs`). Together they render a SET as a shorthand `\d \D \w \W \s \S .` or as a bracketed class.

Files:

- `wrappers.dfy`: `Option` and `Result`.
- `text.dfy`: text as a sequence of character codes, and decimal digits.
- `tokens.dfy`: the token tree. It has one constructor per type tag, plus `Unknown` for any other tag.
- `rangeset.dfy`: the discontinuous range as a finite `set<int>`. Its `length` is the cardinality; `index(k)` is the k-th smallest member.
- `sets.dfy`: the predefined element lists, their SET tokens, and the lookup tables derived from them.
- `set_writer.dfy`: the set writer, with a reader for class syntax to check it against.
- `reconstruct.dfy`: the reconstructor, with readers for literals, quantifiers, groups and references.
- `generator.dfy`: the generator. Set expansion is also given a pointwise reference definition.
- `generator_properties.dfy`: what each node type generates, how draws are consumed, and how captures interact with back-references.

The key modelling choices are these:

- **Readers as partners.** Most renderers are checked against a reader, an inverse defined independently of the renderer. Each reader has a restricted scope:
  - Literals: a ROOT whose stack or options hold only CHARs reads back as those codes.
  - Quantifiers: every suffix with non-negative bounds reads back as its bounds. Which of the six forms is chosen is stated separately.
  - Groups: the prefix reads back as the group kind, around the body's rendering taken as text.
  - References: `\n` reads back as n.
  - Sets: a list of CHARs and RANGEs reads back exactly. A flat SET reads back with its negation. When a shorthand is written, its elements come back only up to a permutation of their keys.
  - Ranges: a RANGE reads back as itself.
  - POSITION has no reader; its rendering is stated case by case.
  - No reader parses a whole token tree.
- **The generator's state.** The `groupNumber` field that the source caches on a token object becomes a map keyed by the token's path in the tree. The map is threaded through the walk and handed from one run to the next.
- **Where code and comments differ.** In that case the model follows the code. For example, a comment in `src/write-set-tokens.mjs` says the `.` shorthand matters only outside a class, yet the check also runs for a SET nested inside a class. There `.` stands for a literal dot. `SetWriter.NestedAnyCharWritesDot` records this.

## Model

| member | source | states |
|---|---|---|
| Generator.RandInt | src/index.mjs:219-221 | for a draw in [0, 1) and a ≤ b, `a + floor(r·(1+b−a))` lies in [a, b] |
| GeneratorProperties.RandIntHits | src/index.mjs:219-221 | every k in [a, b] is produced, by the draw (k−a)/(1+b−a) |
| GeneratorProperties.ThreeWayDraws | src/index.mjs:168-173 | over three choices, draws 0.25, 0.35 and 0.75 select indices 0, 1 and 2 |
| Generator.RandBool | src/index.mjs:157-159 | `randBool` is true exactly for a draw below one half |
| Generator.OtherCase | src/index.mjs:146-149 | lower-case ASCII letters move down by 32 to upper case, upper case moves up by 32, and every other code is unchanged |
| Generator.OtherCaseInvolution | src/index.mjs:146-149 | swapping case twice is the identity, and it changes a code exactly when the code is an ASCII letter |
| Generator.DefaultRange | src/index.mjs:235-237 | the default range is exactly the codes 32 to 126 |
| Generator.DefaultConfig | src/index.mjs:14-56 | a generator built from a pattern string with default settings has `max` 100 and the range 32 to 126, and ignores case exactly when the flag string contains `i` |
| GeneratorProperties.DefaultStarBound | src/index.mjs:46-50 | under the default configuration, `x*` of a single-character `x` emits at most 100 codes, because infinity counts as min + 100 |
| Generator.Fold | src/index.mjs:193-201 | the case-folded additions are exactly the codes whose other case differs from them and lies in the sub-expansion |
| Generator.Expand | src/index.mjs:203-207 | a SET's expansion never leaves the configured range |
| Generator.ExpandMembership | src/index.mjs:183-209 | a code is in a SET's expansion iff it is in the range and some element covers it (directly, or by its other case under `i`) exactly when the set is not negated; nested sets recurse |
| Generator.Store | src/index.mjs:102-104 | storing a capture fills the slot, keeps every other slot, and extends the table with empty slots when the number lies past its end |
| Generator.Captured | src/index.mjs:128-129 | a reference yields the filled slot's text, and the empty text for a number out of range or an unfilled slot |
| Generator.Gen | src/index.mjs:80-136 | generation never renumbers a group, shrinks the capture table or un-consumes a draw, whether it returns or throws (a failure carries the state reached at the throw), and it cannot fail on a tree whose reachable ROOTs and GROUPs have bodies with at least one option |
| Generator.GenBody | src/index.mjs:94-100 | the same preservation facts for a body, and success when the body is present and its options are non-empty |
| Generator.GenStack | src/index.mjs:97-100 | the same preservation facts for a stack, and success when every element can be generated |
| Generator.GenRepeat | src/index.mjs:121-124 | the same preservation facts for n repetitions of a child |
| Generator.Generate | src/index.mjs:68-70 | a run consumes draws forward and keeps every group number assigned by earlier runs, both when it returns and when it throws; it succeeds on a generable tree |
| GeneratorProperties.SilentNodes | src/index.mjs:84-109 | a POSITION, and a lookahead GROUP with any body, emit "" and leave the state unchanged |
| GeneratorProperties.MalformedBodies | src/index.mjs:94-100 | a ROOT or non-lookahead GROUP with no body or no options fails. A ROOT without a body fails with its state untouched; one with empty options fails after consuming its one draw |
| GeneratorProperties.NumberedBeforeFailure | src/index.mjs:89-98 | a remembering GROUP is numbered before its body runs, so after a throw inside the body the reached state still holds the group's new number |
| GeneratorProperties.ZeroRepetitionSkipsChild | src/index.mjs:116-126 | any repetition whose drawn count is at most zero (such as `x?` or `x*` on a low draw) emits "" after its one draw, never expands its child and leaves every other part of the state unchanged |
| GeneratorProperties.UndefinedInStack | src/index.mjs:83-135 | a RANGE or unknown node yields `undefined`, which a stack appends as the text "undefined" |
| GeneratorProperties.CharOutput | src/index.mjs:131-134 | a CHAR emits one code, either itself or its other case. Without `i` it emits itself and takes no draw. With `i` it takes one draw and flips case exactly when the draw is below 0.5. Non-letters are never changed |
| Generator.GenSetNode | src/index.mjs:111-114 | a SET emits at most one code. It emits nothing, without a draw, iff its expansion is empty; otherwise it emits a member of the expansion for exactly one draw |
| GeneratorProperties.SetOutput | src/index.mjs:111-114 | a SET emits "" without a draw iff its expansion is empty; otherwise it emits one code admitted by the membership definition, using one draw |
| GeneratorProperties.GenSetDraw | src/index.mjs:111-114 | a SET with a non-empty expansion takes one draw and emits the member at position `randInt(0, size−1)` of the ascending expansion, a valid position |
| GeneratorProperties.SetMemberReachable | src/index.mjs:168-173 | every member of a SET's expansion is emitted by the draw rank/size |
| GeneratorProperties.IgnoreCaseLetterSet | src/index.mjs:193-201 | under `i`, when both cases of a letter lie in the range, a one-letter set expands to exactly that letter in both cases |
| GeneratorProperties.LiteralStack | src/index.mjs:97-100 | without `i`, a stack of CHARs generates exactly its codes and takes no draw |
| GeneratorProperties.LiteralAlternation | src/index.mjs:94-95 | an alternation of literals takes one draw and emits exactly the option `randInt(0, n−1)` picks |
| GeneratorProperties.FooBarBaz | test/test.mjs:62-73 | the three-way alternation of foo, bar and baz emits foo, bar and baz for the draws 0.25, 0.35 and 0.75 |
| GeneratorProperties.SingleCharOutput | src/index.mjs:111-134 | a CHAR, or a SET with a non-empty expansion, emits exactly one admitted code |
| GeneratorProperties.RepeatSingleChar | src/index.mjs:121-124 | n repetitions of a single-character token emit n admitted codes |
| GeneratorProperties.RepetitionCount | src/index.mjs:116-126 | for a single-character child (a CHAR, or a SET with a non-empty expansion), a repetition emits max(n, 0) admitted codes with n = randInt(min, max or min+this.max); when 0 ≤ min ≤ that ceiling, the count lies between them |
| GeneratorProperties.GenRepetition | src/index.mjs:116-126 | a repetition takes one draw for its count n = randInt(min, ceiling), then emits the output of max(n, 0) generations of its child |
| Generator.GenRepetitionNode | src/index.mjs:116-126 | generating a repetition keeps every group number and consumes draws forward, and it succeeds whenever its child can be generated |
| GeneratorProperties.FourDigits | test/test.mjs:51-54 | `\d{4}` over the default range emits exactly four decimal digits |
| GeneratorProperties.DigitClass | src/sets.mjs:6 | over the default range, the `ints` class emits exactly one code, and only a decimal digit |
| GeneratorProperties.CaptureStored | src/index.mjs:90-104 | a remembering group keeps its earlier number or takes the next free slot, and afterwards that slot holds exactly its output |
| GeneratorProperties.NonCapturingGroup | src/index.mjs:102-105 | a non-remembering group emits its body's output and leaves the state as the body left it |
| GeneratorProperties.ReferenceOutput | src/index.mjs:128-129 | a reference emits the captured text, or "" when the slot is out of range or unfilled, and changes no state |
| GeneratorProperties.SelfReferenceIsEmpty | src/index.mjs:89-92 | the slot is reserved before the body runs, so `(c\1)` emits `c` and captures `c` |
| GeneratorProperties.BackReferenceRepeats | src/index.mjs:90-129 | `(…)\1` emits a square s·s, on the first run and on every later run (the group's first visit always numbers it 0) |
| GeneratorProperties.LateGroupSharesNumber | src/index.mjs:89-92 | the capture table restarts empty on every run while numbers persist, so a group first visited in a later run takes number 0 even when a group numbered earlier holds 0 |
| RangeSet.Span | src/index.mjs:185-187 | `new DRange(from, to)` holds exactly the codes from..to |
| RangeSet.Index | src/index.mjs:168-171 | `index(k)` is a member with exactly k members below it |
| RangeSet.IndexOfRank | src/index.mjs:168-171 | `index` is onto: the member of rank k is `index(k)` |
| Reconstruct.Reconstruct | src/reconstruct.mjs:15-68 | reconstruction succeeds iff the tree has no unknown node and no ROOT or GROUP without a body |
| Reconstruct.Alternate | src/reconstruct.mjs:5-13 | `createAlternate` succeeds iff the body exists and every element of it renders |
| Reconstruct.JoinOptions | src/reconstruct.mjs:7 | joining options succeeds iff every option's stack renders |
| Reconstruct.ReduceStack | src/reconstruct.mjs:3 | `reduceStack` succeeds iff every element renders |
| Reconstruct.StackEscapes | src/reconstruct.mjs:3 | a stack of CHARs reconstructs to its codes, each escaped on its own, in order |
| Reconstruct.OptionsEscape | src/reconstruct.mjs:7 | options made of CHARs reconstruct to their escaped codes joined by pipes |
| Reconstruct.ReadJoinEscaped | src/reconstruct.mjs:7 | escaped alternatives joined by pipes read back as exactly those alternatives |
| Reconstruct.EscapeChar | src/reconstruct.mjs:19-24 | a CHAR gets a backslash exactly when it is one of `[ \ { } $ ^ .` or a pipe or `? * + ( )` |
| Reconstruct.ReadLiteralOptions | src/reconstruct.mjs:7 | literal options joined by pipes read back as exactly those options |
| Reconstruct.LiteralAlternationRoundTrip | src/reconstruct.mjs:17-18 | a ROOT of literal options reconstructs to text that reads back as those options, with escaping undone |
| Reconstruct.LiteralStackRoundTrip | src/reconstruct.mjs:8-9 | a ROOT with a literal stack reads back as its one literal |
| Reconstruct.PlainCharsVerbatim | src/reconstruct.mjs:19-24 | CHARs that are not metacharacters render verbatim |
| Reconstruct.FooBarReconstructs | src/reconstruct.mjs:5-13 | the tokens of the alternation of foo and bar reconstruct to that source text, with a pipe between them |
| Reconstruct.PlainOptionsJoined | src/reconstruct.mjs:5-13 | two options of non-metacharacter CHARs reconstruct to their codes with one pipe between them |
| Reconstruct.SuffixForms | src/reconstruct.mjs:45-60 | the suffix is one character exactly for {0,1}, {1,} and {0,}, so `?`, `+` and `*` take precedence. Every other suffix is a brace form: it has no comma iff max equals min, and ends in `,}` iff it is unbounded |
| Reconstruct.QuantifierRoundTrip | src/reconstruct.mjs:45-60 | for non-negative bounds, the chosen suffix (one of `?`, `+`, `*`, `{m,}`, `{m}`, `{m,n}`) reads back as exactly those bounds |
| Reconstruct.RepetitionRendering | src/reconstruct.mjs:61 | a repetition renders iff its child does, and the child's rendering is a prefix of the result |
| Reconstruct.FourDigitsReconstructs | src/reconstruct.mjs:45-61 | `\d{4}` reconstructs to `\d{4}` |
| Reconstruct.GroupRoundTrip | src/reconstruct.mjs:35-44 | a group's rendering reads back as the kind its flags select and the reconstruction of its body |
| Reconstruct.GroupKindPriority | src/reconstruct.mjs:37-42 | for `KindOf`, the prefix choice: the kind is Named iff there is a name. Otherwise it is Capturing iff `remember`. Then a lookahead by `followedBy`, then `notFollowedBy`, otherwise non-capturing |
| Reconstruct.ReferenceRoundTrip | src/reconstruct.mjs:31-32 | `\n` reads back as group number n |
| Reconstruct.PositionRendering | src/reconstruct.mjs:25-30 | a position is written bare iff it is `^` or `$`; otherwise it is a backslash before the marker |
| Reconstruct.RangeRoundTrip | src/reconstruct.mjs:63-64 | a RANGE renders as class text that reads back as that one range |
| Reconstruct.SetTokenRoundTrip | src/reconstruct.mjs:33-34 | a flat SET renders as text that reads back as a set with the same negation and a permutation of the same elements |
| Text.DigitsRoundTrip | src/reconstruct.mjs:55-59 | the decimal digits of a count read back as the count |
| SetWriter.SetChar | src/write-set-tokens.mjs:9-15 | inside a class, exactly 94, 92, 93 and 45 get a backslash; every other code is one character |
| SetWriter.IsSameSet | src/write-set-tokens.mjs:26-28 | a length mismatch is never the same set |
| SetWriter.ConsumeIsSubMultiset | src/write-set-tokens.mjs:29-41 | the consume-once loop accepts iff no element is a nested SET and each key occurs no more often than the table allows (once) |
| SetWriter.NestedSetNeverMatches | src/write-set-tokens.mjs:31-33 | a nested SET element makes the comparison false |
| SetWriter.RepeatedKeyFails | src/write-set-tokens.mjs:35-39 | a repeated key makes the comparison false |
| SetWriter.IsSameSetOrderIndependent | src/write-set-tokens.mjs:29-40 | the verdict does not depend on the order of the elements |
| SetWriter.IsSameSetIsPermutation | src/write-set-tokens.mjs:23-42 | against a table of distinct keys, `isSameSet` holds iff the elements are flat and their keys are a permutation of the list's keys |
| SetWriter.WriteSetTokens | src/write-set-tokens.mjs:50-71 | a SET is written as the first shorthand whose class it permutes, in the order digits, word, `.` (negated only), whitespace; otherwise as `^`? plus the elements, bracketed unless nested |
| SetWriter.ReadWrittenItems | src/write-set-tokens.mjs:64-68 | the concatenated renderings of CHARs and RANGEs (`WriteItems`) read back as exactly those elements, in order |
| SetWriter.WrittenTokenReadsBack | src/write-set-tokens.mjs:78-83 | `writeSetToken` of one CHAR or RANGE reads back as exactly that element |
| SetWriter.WriteSetRoundTrip | src/write-set-tokens.mjs:64-70 | a written flat SET reads back with its negation and a permutation of its keys; when no shorthand applies, it reads back with exactly its elements |
| SetWriter.DigitTokensWriteShorthand | src/write-set-tokens.mjs:51-53 | `ints` is written `\d` and `notInts` is written `\D` |
| SetWriter.WordTokensWriteShorthand | src/write-set-tokens.mjs:54-56 | `words` is written `\w` and `notWords` is written `\W` |
| SetWriter.AnyCharTokenWritesDot | src/write-set-tokens.mjs:58-60 | `anyChar` is written `.` |
| SetWriter.LineTerminatorsUnnegated | src/write-set-tokens.mjs:58-60 | the line terminators without negation are never `.`, but a bracketed class |
| SetWriter.WhitespaceTokensWriteShorthand | src/write-set-tokens.mjs:61-63 | `whitespace` is written `\s` and `notWhitespace` is written `\S` |
| SetWriter.NestedAnyCharWritesDot | src/write-set-tokens.mjs:57-60 | a nested negated line-terminator SET is still written `.` |
| Sets.PredefinedListsWellFormed | src/sets.mjs:6-38 | the four lists have no nested SET, no empty RANGE and no repeated key |
| Sets.AscendingDistinct | src/sets.mjs:15-31 | a flat list whose elements start at strictly increasing codes repeats no key |
| Sets.PredefinedTokens | src/sets.mjs:41-47 | each class and its negation share their list and differ only in `not`. `anyChar` is the negated line terminators. The whitespace list is 14 CHARs plus RANGE 8192–8202 |
| Sets.LookupOf | src/write-set-tokens.mjs:29-35 | a lookup table holds exactly the keys of its list, with the list's length |

## Left out

- Seeding and the pseudo-random generator: `seed`, the external random library and the `Math.random` fallback are not modelled. Draws are a parameter, `random: nat -> real`, and are assumed to lie in [0, 1).
- Floating point: JavaScript numbers are IEEE doubles, but the model uses exact reals and unbounded integers. `randInt` is computed over exact reals. Repetition bounds, group indices, character codes and `min + max` are unbounded integers, so rounding above 2^53 is not modelled. `Text.Decimal` matches JavaScript's rendering of an integer only below 10^21 in magnitude; from 10^21 on, JavaScript prints exponent notation such as `1e+21`.
- The constructor and `_setDefaults`: a RegExp object as input, the type check, and overrides of `max` and the range from the expression or the prototype are not modelled. `max`, the range and the `i` flag are fields of `Config`. `DefaultConfig` gives the defaults for a pattern string: `DefaultMax` (100), the default range, and `i` when the flag string holds it. The `m` flag is never read by the core.
- The tokenizer is not part of this model. Token trees are inputs.
- The discontinuous-range library is not part of this model. A range is a `set<int>`, and a RANGE with from > to expands to nothing.
- `String.fromCharCode`: output is a sequence of integer codes, so codes above 0xFFFF are not truncated to 16 bits.
- `static randexp` and `sugar` are not modelled: they patch `RegExp.prototype` and call a method that does not exist.
- `_randSelect` is not modelled as a separate function. It appears at its two call sites, the options list and the expanded range, as `randInt(0, length − 1)` followed by indexing.
- Error messages: only the error kind is kept, not the message text.
- Set elements are typed as CHAR, RANGE or nested SET. A SET holding any other node type cannot be expressed.
- Reconstruct.QuantifierRoundTrip: holds only for non-negative bounds, because a negative count written as `{-1}` does not read back as a count.
- Reconstruct.GroupRoundTrip: requires a name without `>`. For a capturing group only, the content must not start with `?`. Otherwise the rendering is ambiguous.
- SetWriter.WrittenTokenReadsBack: covers a CHAR or RANGE. A nested SET is written by `writeSetTokens` without brackets, and that case is stated by `SetWriter.WriteSetTokens` and `SetWriter.NestedAnyCharWritesDot`.
- GeneratorProperties.RepetitionCount: counts codes only for a single-character child. For other children, `GeneratorProperties.GenRepetition` states the output as max(n, 0) generations of the child.
- Reconstruct.SetTokenRoundTrip: covers flat SETs only. A nested negated SET renders its `^` inside the outer class, which does not read back as negation.
- Reconstruct.LiteralAlternationRoundTrip: covers options made of CHARs only.
- GeneratorProperties.BackReferenceRepeats: covers only the shape `(…)\1` at the head of a ROOT stack.
