# Envassure in Dafny: exact claims about its algorithmic core

A model of the nine algorithmic pieces of envassure, an environment-assurance toolkit, and proofs of what each is for.
`dafny verify dfyconfig.toml` checks all of it. Python loops and objects are methods with loops and classes, each proved
against a specification function; the theorems are lemmas about those functions.

| piece | files | what is proved of it |
|---|---|---|
| Paired equivalence statistics | `Binomial`, `Bisection`, `PairedEquivalence`, `Sampling`, `Coverage`, `BareCoverage` | the confidence and error rates the interval and the verdict promise, over all independent samples |
| Counterexample minimizer | `Granules`, `Reductions`, `Minimizer` | a failing subsequence, every step the first its round can take, one-minimality, cost bounds |
| Canonical JSON | `CanonicalJson`, `CanonicalRoundTrip`, `CanonicalEquality`, `CanonicalKeyOrder` | a left inverse; equal texts exactly for equal values; where the key order meets RFC 8785 |
| Expression language | `ExprAst`, `ExprLexer`, `ExprGrammar`, `ExprParser`, `ExprPrinter`, `ExprRoundTrip`, `ExprText`, `ExprConfusion`, `ExprDerivations`, `ExprLexemes`, `ExprNames`, `ExprReadings`, `ExprEval`, `ExprEvaluator`, `ExprLaws`, `ExprArithmetic`, `ExprEquality`, `ExprMeaning`, `ExprTypes` | print then parse is the identity, exactly when; only what the grammar derives is accepted; what each construct means; the mutating evaluator refines a pure semantics; typing is sound |
| Authorization language | `AuthSyntax`, `AuthRoundTrip`, `AuthSpellings`, `AuthEval`, `AuthAtoms`, `AuthOrder`, `AuthReasons` | compile inverts print; what each requirement demands; ALLOW is Boolean truth; monotonicity; revocation; exactly when child order matters |
| Bounded reachability | `Reachability` | recorded depths are distances; an untruncated finding is exact |
| Observation projection | `StateTree`, `Projection`, `ProjectionRun`, `ProjectionEffects` | confinement and non-interference of the whole projection; exactly when a path stays masked, or is gone |
| Fact reconciliation | `Reconciliation`, `ReconciliationLaws`, `ReconciliationStatus`, `ReconciliationTies` | who is accepted and rejected; exactly when arrival order matters; that precedence does not |
| Alias groups | `AliasGroups` | exactly the connected components |

`Wrappers`, `Text` and `Sorting` are shared: results, character classes and stripping, and stable sorting by a total preorder.

## Choices

- Floats are exact reals. The normal CDF behind `stochastic_z` is a function parameter, so every statement about alpha
  holds for whatever level it yields. A bisection ends in a bracket of width 2^-70 and returns its midpoint; coverage is
  stated for the interval widened by that much, and for the interval as reported with a loss of n * 2^-69.
- Exceptions are `Err` results or `None`. Calls into the host, such as `str`, `lower` and attribute access in the
  evaluator, the failure predicate of the minimizer, the date reader and the time of the authorization language, and the action graph, are
  parameters.
- A dict whose order can be observed is a sequence of entries, or a map with its keys in insertion order; a dict or set
  whose order is arbitrary is taken apart in arbitrary order, and the results are proved independent of it.
- Dotted paths are sequences of segments.

## Where the code and its documentation differ

- The encoder sorts keys by code point, while its comment and RFC 8785 section 3.2.3 speak of UTF-16 code units. The two
  orders part on exactly the pairs named in `CanonicalKeyOrder.OrdersAgree`.
- `_match` compares a token's kind or its value, so the string literals `'not'`, `'if'` and `'('` pass for syntax. The
  round trip is therefore stated with its exact condition, `ExprConfusion.RoundTripExactly`.
- The tokenizer's branch for numbers that start with a dot is dead, as the dot is taken for punctuation first, and so is
  the branch of `infer_type` that calls `+` a value of any type, as `+` is listed with the arithmetic operators. The model
  follows the code; `ExprTypes.SumTypeExactly` says when the inferred type of a sum is right.
- An omitted path below a visible one is shown in allow-list mode (`Projection.OmittedChildIsShown`).
- The minimizer's budget may be exceeded: by at most two in the granularity phase, which counts a try before it looks at
  the budget (two or more elements and a budget of one end at three, whatever fails), and by at most a pass less one in
  the drop phase, which looks at it only between passes (two elements that fail only together and a budget of six end at
  seven). Both runs are clauses of the minimizer's contract. A caller who grants more than 5L^2 + 5L iterations for L elements stays below the budget and
  gets a result from which no element can be dropped (`Minimizer.MinimizeCounterexample`).
- `True == 1` in Python, but the canonical texts `true` and `1` differ. Equality of values is therefore taken to tell
  booleans from integers (`CanonicalEquality.BooleansAreNoIntegers`). The other way round, `(1,) != [1]` in Python, but
  the encoder writes a tuple as it writes a list, and both are one value here.
- `min` and `max` are inferred to be numbers, and are not on `min("b", "a")` or `max(0, true)`;
  `ExprTypes.ExtremeTypeExactly` says exactly when they are.
- A delegation rule is searched for its prefix after stripping, but the prefix's length is cut off the rule as given, so
  spaces in front leave part of the prefix in the target (`AuthAtoms.PrefixedRule`). The second of the two comparisons of
  a candidate with the required token never decides (`AuthAtoms.SecondComparisonIsIdle`).
- The order of `and` and `or` operands never changes an ALLOW, but can change the decision between the two refusals
  (`AuthOrder.OrderMattersExactly`) and, more often, the reason code (`AuthReasons.ReasonMattersExactly`); and a redacted path can be shown again by a rename (`ProjectionRun.MaskExactly`).

## Model

| member | source | states |
|---|---|---|
| `Coverage.PairedIntervalCoverage` | src/envassure/differential/compare.py:428-474 | The promised confidence: for every table of cell probabilities and every number of independent pairs, the reported interval, widened by 2^-70 on each side, holds the true difference `p01 - p10` with probability at least 1 - alpha. |
| `Coverage.FalseMatchControl` | src/envassure/differential/compare.py:552-569 | Systems that differ by more than the margin (plus 2^-70) are declared a match with probability at most alpha, for every table, sample size and setting. |
| `Coverage.FalseMismatchControl` | src/envassure/differential/compare.py:552-578 | Systems within the margin (less 2^-70) are declared a mismatch with probability at most alpha. |
| `Coverage.LowerEndRarelyMisses` | src/envassure/differential/compare.py:406-415 | The chance that the lower Clopper-Pearson end, less the bisection slack, lies above the true probability is at most the tail, whatever the true probability is. |
| `Coverage.UpperEndRarelyMisses` | src/envassure/differential/compare.py:416-425 | The mirrored claim for the upper end. |
| `Coverage.CellRarelyMisses` | src/envassure/differential/compare.py:435-441 | Both ends together miss with probability at most twice the tail: the first half of the Bonferroni argument. |
| `Coverage.MarginalHolds` | src/envassure/differential/compare.py:392-425 | When neither end misses, the marginal interval holds the true cell probability up to 2^-71, for the closed ends 0 and 1 too. |
| `Coverage.NoMissThenCovered` | src/envassure/differential/compare.py:459-474 | When no marginal interval misses, the clamped difference of the ends holds the true difference. |
| `Coverage.NothingConcluded` | src/envassure/differential/compare.py:450-454 | An empty sample, or a critical value with no level, never concludes anything. |
| `BareCoverage.BareIntervalCoverage` | src/envassure/differential/compare.py:428-474 | The interval as it is reported, not widened, holds the true difference with probability at least 1 - alpha - n * 2^-69. |
| `BareCoverage.BareFalseMatchControl` | src/envassure/differential/compare.py:552-569 | Systems beyond the margin by however little are declared a match with probability at most alpha + n * 2^-69. |
| `BareCoverage.BareFalseMismatchControl` | src/envassure/differential/compare.py:552-578 | Systems within the margin are declared a mismatch with probability at most alpha + n * 2^-69. |
| `BareCoverage.BareIntervalCanFallShort` | src/envassure/differential/compare.py:428-474 | For exact reals some loss is real: at any level below 2^-72 a single pair from an almost certain table is covered by the bare interval with less than the promised probability. |
| `BareCoverage.TailAtOvershoot` | src/envassure/differential/compare.py:406-415 | Where the reported lower end overshoots, the tail at the true probability exceeds the nominal one by n * 2^-71 at most. |
| `BareCoverage.TailAtUndershoot` | src/envassure/differential/compare.py:416-425 | The mirrored claim for the upper end. |
| `Binomial.TailSlopes` | src/envassure/differential/compare.py:344-365 | Either tail moves by at most n times the move of p. |
| `Sampling.CellCountIsBinomial` | src/envassure/differential/compare.py:435-437 | Over independent pairs drawn from any four-cell table, the count of one cell lies in a..b with exactly the binomial probability: each discordant cell is a binomial marginal. |
| `Sampling.CellCountMass` | src/envassure/differential/compare.py:335-338 | Exactly k pairs fall in a cell with the probability of the one term the source sums. |
| `Sampling.UnionBound` | src/envassure/differential/compare.py:438-441 | Boole's inequality for the events of the model; with Complement it carries the Bonferroni step. |
| `Sampling.Complement` | src/envassure/differential/compare.py:438-441 | An event and its negation have probabilities adding up to one. |
| `PairedEquivalence.LowerEndSolves` | src/envassure/differential/compare.py:406-415 | The lower end is the midpoint of a bracket of width 2^-70 on which the upper tail crosses alpha/2: below it at the left, at or above it at the right. |
| `PairedEquivalence.UpperEndSolves` | src/envassure/differential/compare.py:416-424 | The upper end is the midpoint of a bracket of width 2^-70 on which the CDF crosses alpha/2. |
| `PairedEquivalence.NotInverted` | src/envassure/differential/compare.py:406-425 | The interval is never inverted and stays inside [0, 1], after rounding to the midpoints too. |
| `PairedEquivalence.EndsMonotoneInSuccesses` | src/envassure/differential/compare.py:392-425 | One more success never lowers either end. |
| `PairedEquivalence.ExchangeMirrors` | src/envassure/differential/compare.py:477-586 | Exchanging reference and candidate negates and swaps the interval and leaves the verdict alone. |
| `PairedEquivalence.DiscordantCellsDecide` | src/envassure/differential/compare.py:435-436 | The difference of the two success counts is the difference of the two discordant counts. |
| `PairedEquivalence.VerdictMeaning` | src/envassure/differential/compare.py:477-586 | With valid settings and enough samples the verdict is a match exactly when every difference in the interval is within the margin, a mismatch exactly when none is, and indeterminate otherwise. |
| `PairedEquivalence.UnsettledIsIndeterminate` | src/envassure/differential/compare.py:489-550 | Without a valid margin, enough samples and a level there is no conclusion. |
| `PairedEquivalence.EstimateExactly` | src/envassure/differential/compare.py:449-474 | The estimate exists for every nonempty sample and proper level, equals the difference of the two success rates, its reported level is the one of the critical value, and its interval is the difference of the two marginal ones, never inverted: the clamps to [-1, 1] never bite. |
| `Bisection.SolveProbability` | src/envassure/differential/compare.py:368-389 | The 70-step loop returns the midpoint of the bracket that the specification search ends with. |
| `Bisection.SearchSound` | src/envassure/differential/compare.py:374-389 | The bracket stays in [0, 1], has width exactly 2^-70, and each end that moved was moved by the test at that very point; no root needs to exist. |
| `Bisection.BisectSound` | src/envassure/differential/compare.py:377-388 | The same for any start and any number of halvings. |
| `Bisection.BisectOrdered` | src/envassure/differential/compare.py:377-389 | Of two searches, one that climbs wherever the other does ends no lower. |
| `Binomial.TermIsMass` | src/envassure/differential/compare.py:335-338 | The closed form n!/(k!(n-k)!) p^k q^(n-k) obeys the recursion of the number of successes in n independent trials. |
| `Binomial.ProbabilitySumExact` | src/envassure/differential/compare.py:318-341 | The branches at p = 0 and p = 1 and the general sum are all the same probability, and the cap at one never bites. |
| `Binomial.CdfExact` | src/envassure/differential/compare.py:344-353 | Whichever tail is summed, the CDF is the direct sum for every k (negative and past n too), and the floor at zero never bites. |
| `Binomial.UpperTailExact` | src/envassure/differential/compare.py:356-365 | The same for the upper tail. |
| `Binomial.TailsComplement` | src/envassure/differential/compare.py:344-365 | The CDF at k and the upper tail at k + 1 add up to one, both within [0, 1]. |
| `Binomial.TotalIsOne` | src/envassure/differential/compare.py:318-341 | The probabilities of all counts sum to one. |
| `Binomial.CdfNonincreasing` | src/envassure/differential/compare.py:344-353 | The CDF does not increase with p, which the decreasing search relies on. |
| `Binomial.UpperTailNondecreasing` | src/envassure/differential/compare.py:356-365 | The upper tail does not decrease with p, which the increasing search relies on. |
| `Binomial.TailsOrderedInCount` | src/envassure/differential/compare.py:344-365 | Both tails are monotone in the count, and overlap. |
| `PairedEquivalence.LevelIsOuterMass` | src/envassure/differential/compare.py:452 | For a distribution symmetric about zero the nominal level is the mass outside [-z, z]: two-sided, as the docstring says. |
| `PairedEquivalence.ProperLevelExactly` | src/envassure/differential/compare.py:452-454 | It is a level strictly between 0 and 1 exactly when there is mass on both sides of z and of -z. |
| `PairedEquivalence.ReasonExactly` | src/envassure/differential/compare.py:489-586 | Each detail the verdict reports is reported in exactly its own case, the first thing amiss winning. |
| `Bisection.SearchWidth` | src/envassure/differential/compare.py:377-389 | Seventy halvings, in figures: the final bracket is 1/1180591620717411303424 wide. |
| `Minimizer.MinimizeCounterexample` | src/envassure/differential/minimize.py:42-158 | If the input fails, the result is a nonempty failing subsequence, the recorded steps are a strictly shrinking chain of failing subsequences ending at it, each of them the first failing candidate of its round with the kind of its phase and the iteration the source counts, no single element can be dropped when the budget was not used up, and the number of iterations obeys both the budget bound and a quadratic bound, so that a budget above 5L^2 + 5L is never used up and leaves nothing to drop; with a budget of one, two or more elements cost three iterations, and a pair that fails only together costs seven with a budget of six; otherwise the input comes back unreduced. |
| `Minimizer.ReduceByGranules` | src/envassure/differential/minimize.py:88-121 | The granularity phase terminates, records exactly the finds of the specified search in order, stops only where that gets stuck or the next find is past the budget, and spends at most the budget plus two and at most its quadratic share. |
| `Minimizer.DropSingles` | src/envassure/differential/minimize.py:123-134 | The single-drop phase terminates, records only first failing drops, keeps the chain, and within the budget ends one-minimal. |
| `Minimizer.TrySubsets` | src/envassure/differential/minimize.py:92-102 | Returns the first failing part, after exactly the tries before it; or none of those the budget reaches fails, at the charge of the source. |
| `Minimizer.TryComplements` | src/envassure/differential/minimize.py:105-116 | The same for complements, each of which leaves at least the other parts' elements. |
| `Granules.Partition` | src/envassure/differential/minimize.py:161-171 | The parts in order make up the sequence; with granularity n >= 2 there are min(n, length) of them and none is empty; they are cut at the floors of j * length / n. |
| `Granules.ComplementOf` | src/envassure/differential/minimize.py:174-181 | The loop over the positions yields the remainder without the part. |
| `Granules.SubseqTransitive` | src/envassure/differential/minimize.py:92-134 | Repeated reductions of subsequences are subsequences of the original. |
| `Granules.PartOccurs` | src/envassure/differential/minimize.py:105-109 | Each part of a partition occurs in the sequence, and the other parts account for at least one element each. |
| `Reductions.ChainExtends` | src/envassure/differential/minimize.py:77-86 | A recorded smaller failing subsequence extends the chain. |
| `Minimizer.ReductionPays` | src/envassure/differential/minimize.py:88-121 | A round that shortens the sequence is paid for by the drop of the cost bound, although it resets the granularity. |
| `Minimizer.RoundCost` | src/envassure/differential/minimize.py:119-121 | A round that shortens nothing is paid for by the doubled granularity. |
| `Reductions.HitMeaning` | src/envassure/differential/minimize.py:88-121 | The find of the specified search: granularities double until a candidate fails; it is the first failing candidate of its round, a part before any complement, its iteration is what the rounds in vain and the tries cost, and the search goes on from granularity two after a part and one less after a complement. |
| `Reductions.StuckMeaning` | src/envassure/differential/minimize.py:88-121 | A search gets stuck only after a round with single elements, none of whose candidates fails, at that cost. |
| `Reductions.OrderedExtends` | src/envassure/differential/minimize.py:77-134 | A recorded run stays in order under one more expected step. |
| `Minimizer.RoundOver` | src/envassure/differential/minimize.py:92-121 | A round without a find, cut short by the budget or not, is what the search specification says of it. |
| `Granules.PiecesAreEven` | src/envassure/differential/minimize.py:161-171 | No part is longer than another by more than one element. |
| `Granules.RemainderExactly` | src/envassure/differential/minimize.py:174-180 | What is left without a part that occurs: the first occurrence is cut out. |
| `Granules.RemainderElsewhere` | src/envassure/differential/minimize.py:181 | Where it does not occur, every element it has is dropped. |
| `CanonicalJson.EncodeString` | src/envassure/canonical/__init__.py:22-46 | The character loop yields the quoted string with RFC 8785 section 3.2.2.2 escapes. |
| `CanonicalJson.EscapesOnlyWhereNeeded` | src/envassure/canonical/__init__.py:25-44 | Characters that need no escape stand for themselves, the seven with a short escape take two characters and the other controls six; no control character comes out. |
| `CanonicalJson.EncodesSupported` | src/envassure/canonical/__init__.py:87-110 | The encoder fails exactly on values that hold, at any depth, an unsupported type or a key that is no string. |
| `CanonicalRoundTrip.ValueDecodes` | src/envassure/canonical/__init__.py:87-115 | A decoder inverts the encoder: decode(encode(v) + rest) = (v, rest) for every rest that does not start with a digit. |
| `CanonicalRoundTrip.StringDecodes` | src/envassure/canonical/__init__.py:22-46 | Every quoted string is read back, with what follows it untouched. |
| `CanonicalRoundTrip.IntDecodes` | src/envassure/canonical/__init__.py:53-54 | Every integer that has a text is read back, whatever its sign. |
| `CanonicalRoundTrip.MembersDecode` | src/envassure/canonical/__init__.py:100-109 | The members of a dict are read back as the map they denote. |
| `CanonicalRoundTrip.SortedMeansSame` | src/envassure/canonical/__init__.py:102-108 | Sorting the items does not change what the dict means. |
| `CanonicalEquality.EqualTextsIffEqualValues` | src/envassure/canonical/__init__.py:87-115 | Two values have one canonical text if and only if they are equal, where a boolean is no integer. |
| `CanonicalEquality.BooleansAreNoIntegers` | src/envassure/canonical/__init__.py:90-97 | A boolean and the integer that Python holds equal to it have different texts. |
| `CanonicalEquality.InsertionOrderIsInvisible` | src/envassure/canonical/__init__.py:101-109 | Inserting the entries of a dict in another order leaves its text alone. |
| `CanonicalKeyOrder.OrdersAgree` | src/envassure/canonical/__init__.py:101-107 | Code-point order and the UTF-16 order of RFC 8785 section 3.2.3 agree on two keys exactly unless they first differ in a character above the BMP against one in U+E000..U+FFFF. |
| `CanonicalKeyOrder.MembersInStandardOrder` | src/envassure/canonical/__init__.py:101-107 | A dict comes out in the standard's member order exactly when no two of its keys differ in that way. |
| `CanonicalKeyOrder.KeyOrderDeparts` | src/envassure/canonical/__init__.py:101-107 | A dict on which the encoder departs from the standard's order. |
| `ExprLexer.Tokenize` | src/envassure/expressions/parser.py:51-128 | The index loop yields the token sequence of the specification lexer, or fails where it does. |
| `ExprLexer.ReadToken` | src/envassure/expressions/parser.py:60-126 | One step of the loop reads the first token and stops where the rest begins. |
| `ExprLexer.ReadString` | src/envassure/expressions/parser.py:79-102 | The inner loop reads the literal with its escapes, or finds it unterminated. |
| `ExprLexer.NumberEnd` | src/envassure/expressions/parser.py:103-108 | Stops after the longest run of digits and dots. |
| `ExprLexer.WordEnd` | src/envassure/expressions/parser.py:110-114 | Stops after the longest run of word characters. |
| `ExprGrammar.MatchesKeyword` | src/envassure/expressions/parser.py:145-148 | `_match` of a keyword accepts the keyword and the string literal that spells it, and no other token. |
| `ExprGrammar.MatchesPunctuation` | src/envassure/expressions/parser.py:145-148 | `_match` of a bracket or separator accepts it and the string literal that spells it, and no other token. |
| `ExprGrammar.MatchesId` | src/envassure/expressions/parser.py:145-158 | `_match` of a name accepts names and the string literal `id`. |
| `ExprText.TokensLexed` | src/envassure/expressions/parser.py:51-128 | The tokenizer makes only tokens of the shape that these readings of `_match` assume. |
| `ExprParser.Parser.ParseOr` | src/envassure/expressions/parser.py:170-175 | Reads exactly what the grammar reads at this level and leaves the cursor where it stops, never past the end; the recursion terminates on every token list. |
| `ExprParser.Parser.ParseAnd` | src/envassure/expressions/parser.py:177-182 | The same for conjunctions, to the left. |
| `ExprParser.Parser.ParseNot` | src/envassure/expressions/parser.py:184-187 | The same for negations. |
| `ExprParser.Parser.ParseComparison` | src/envassure/expressions/parser.py:189-201 | The same for one comparison or membership. |
| `ExprParser.Parser.ParseAdd` | src/envassure/expressions/parser.py:203-209 | The same for sums, to the left. |
| `ExprParser.Parser.ParseMul` | src/envassure/expressions/parser.py:211-217 | The same for products, to the left. |
| `ExprParser.Parser.ParseUnary` | src/envassure/expressions/parser.py:219-226 | The same for signs. |
| `ExprParser.Parser.ParsePrimary` | src/envassure/expressions/parser.py:228-293 | The same for conditionals, quantifiers, brackets and atoms. |
| `ExprParser.Parser.ParseConditional` | src/envassure/expressions/parser.py:231-237 | The same for the branches of a conditional. |
| `ExprParser.Parser.ParseCollectionPred` | src/envassure/expressions/parser.py:240-257 | The same for the variable, domain and body of a quantifier. |
| `ExprParser.Parser.ParseAtom` | src/envassure/expressions/parser.py:264-293 | The same for literals, or a path or call. |
| `ExprParser.Parser.ParsePathOrCall` | src/envassure/expressions/parser.py:295-318 | The same for a call with its arguments, or a path. |
| `ExprParser.Parser.Advance` | src/envassure/expressions/parser.py:140-143 | Moves the cursor by one token and never off the end. |
| `ExprParser.Parser.MatchKw` | src/envassure/expressions/parser.py:145-148 | Consumes one token exactly if it passes for the keyword. |
| `ExprParser.Parser.MatchPunct` | src/envassure/expressions/parser.py:145-148 | Consumes one token exactly if it passes for the bracket or separator. |
| `ExprParser.Parser.ExpectId` | src/envassure/expressions/parser.py:150-158 | Yields a name and consumes it, or fails with the cursor unmoved. |
| `ExprParser.Parser.Parse` | src/envassure/expressions/parser.py:160-168 | A whole phrase with nothing after it. |
| `ExprParser.ParseExpression` | src/envassure/expressions/parser.py:321-339 | Strips, tokenizes and parses; the empty text has an error of its own. |
| `ExprConfusion.RoundTripExactly` | src/envassure/expressions/parser.py:51-318 | For every writable tree, printing it with least brackets and parsing the text gives it back if and only if no string literal in it can pass for syntax: `if` and `(` anywhere, `not` at the head of a negatable operand. |
| `ExprText.TextRoundTrip` | src/envassure/expressions/parser.py:51-339 | Print then parse is the identity through characters, tokens and all grammar levels, for trees clean of such literals. |
| `ExprText.AllRead` | src/envassure/expressions/parser.py:51-128 | Tokens written with spaces between them are read back one by one. |
| `ExprRoundTrip.TokensRoundTrip` | src/envassure/expressions/parser.py:160-318 | The same on tokens: precedence and associativity of every level. |
| `ExprConfusion.ReparseIsClean` | src/envassure/expressions/parser.py:145-148 | A tree that survives is clean: the converse of the round trip. |
| `ExprConfusion.QuotedNotIsNegation` | src/envassure/expressions/parser.py:145-148 | The literal `'not'` alone does not survive. |
| `ExprEvaluator.Evaluate` | src/envassure/expressions/evaluate.py:34-77 | The evaluator that mutates its context returns the value or error of the pure environment-passing semantics, and on every outcome leaves the bindings exactly as they were. |
| `ExprEvaluator.EvaluateBinary` | src/envassure/expressions/evaluate.py:131-177 | The same for binary operators, short circuits included. |
| `ExprEvaluator.EvaluateCollectionPred` | src/envassure/expressions/evaluate.py:230-262 | The same for quantifiers, which rebind the variable in place and restore. |
| `ExprEvaluator.EvaluateBool` | src/envassure/expressions/evaluate.py:80-95 | The same where a truth value is wanted. |
| `ExprEvaluator.EvaluateAll` | src/envassure/expressions/evaluate.py:195 | The same for arguments, left to right, stopping at the first error. |
| `ExprEval.Coincidence` | src/envassure/expressions/evaluate.py:98-115 | The value depends on the bindings of the free names only. |
| `ExprEval.InnermostBindingWins` | src/envassure/expressions/evaluate.py:246-259 | An inner quantifier over the same variable hides the outer binding. |
| `ExprEval.BindingShadowsEveryRoot` | src/envassure/expressions/evaluate.py:99-104 | A path whose first segment is bound is the same under every root and every state. |
| `ExprEval.QuantifyMeaning` | src/envassure/expressions/evaluate.py:247-259 | `all` and `any` are settled by the first member whose body fails or decides; with none they hold their neutral value. |
| `ExprLaws.DeMorgan` | src/envassure/expressions/evaluate.py:40-43 | Pushing a negation through `and` or `or` keeps the value or the error, in the same order of evaluation. |
| `ExprLaws.QuantifierDuality` | src/envassure/expressions/evaluate.py:230-262 | `not all` is `any not` and `not any` is `all not`, errors and bounds included. |
| `ExprLaws.ComparisonComplement` | src/envassure/expressions/evaluate.py:141-157 | Negating a comparison is the complementary comparison, with the same type errors. |
| `ExprLaws.InvertedIsNegated` | src/envassure/expressions/evaluate.py:59-69 | Inverted membership is the negation of membership. |
| `ExprLaws.FloorDivisionLaw` | src/envassure/expressions/evaluate.py:174-176 | Integer `//` and `%` divide with the remainder on the divisor's side of zero. |
| `ExprTypes.InferenceSound` | src/envassure/expressions/types.py:70-113 | If evaluation succeeds and the inferred type is definite, the value has it; NUMBER is sound away from `+`, `min` and `max`. |
| `ExprTypes.ExtremeTypeExactly` | src/envassure/expressions/evaluate.py:202-205 | A minimum or maximum is one of the values compared, and it is a number if and only if these are numbers and booleans and the one that leads them, strictly beyond all earlier and not exceeded by any later, is no boolean; where no boolean is among them, if and only if the first is a number. |
| `ExprTypes.ExtremeIsNumberExactly` | src/envassure/expressions/evaluate.py:202-205 | The same for any collection that has a minimum or maximum. |
| `ExprTypes.ExtremeLeads` | src/envassure/expressions/evaluate.py:202-205 | Among numbers and booleans the result is the value that leads. |
| `ExprTypes.LeaderIsUnique` | src/envassure/expressions/evaluate.py:202-205 | One position leads. |
| `ExprTypes.ExtremesThatAreNoNumbers` | src/envassure/expressions/evaluate.py:202-205 | The least of two strings and a boolean above a number are inferred NUMBER and are none. |
| `ExprTypes.ExtremeIsOne` | src/envassure/expressions/evaluate.py:202-205 | The extreme is among the values, and all of them are strings, or all lists, or all numbers and booleans. |
| `ExprTypes.SumTypeExactly` | src/envassure/expressions/types.py:83-84 | A sum is inferred NUMBER, and its value is a number exactly when its left operand is. |
| `ExprTypes.ConcatenationIsNoNumber` | src/envassure/expressions/types.py:83-87 | A concatenation of strings is inferred NUMBER and is none. |
| `ExprTypes.BuiltinType` | src/envassure/expressions/types.py:22-35 | Each allow-listed function but `min` and `max` yields its declared type whenever it succeeds. |
| `ExprDerivations.AcceptedIsSpelled` | src/envassure/expressions/parser.py:131-318 | Soundness of the parser: tokens it accepts are a derivation of the tree it returns in the grammar, written as a relation with its literal operators, levels and associativity; nothing else is accepted. |
| `ExprLexemes.LexExactly` | src/envassure/expressions/parser.py:51-128 | The tokenizer returns tokens exactly for the texts laid out as them: each in its written form, as long as can be, with spaces between as one likes. |
| `ExprLexemes.AcceptedTextIsSpelled` | src/envassure/expressions/parser.py:321-339 | Both together: an accepted text is laid out as tokens that spell the tree. |
| `ExprNames.BareNamesAreState` | src/envassure/expressions/parser.py:282-318 | Wherever a bare name stands for a value, writing `state.` before it (and `null` for `none`) leaves the parse of the whole token sequence unchanged. |
| `ExprReadings.BareNameIsState` | src/envassure/expressions/parser.py:307-318 | In particular a text that starts with a bare name reads as with `state.` in front, whatever follows. |
| `ExprReadings.ContainsTextSwaps` | src/envassure/expressions/parser.py:194-195 | `a contains b` reads as `b in a`. |
| `ExprReadings.NumbersRead` | src/envassure/expressions/parser.py:268-273 | Digits read as their number, digits with a dot as whole part plus fraction, and a second dot is refused. |
| `ExprReadings.DigitsJoin` | src/envassure/expressions/parser.py:268-273 | Digit strings are read positionally. |
| `Text.SpacesListed` | src/envassure/expressions/parser.py:56-58 | Which characters count as space, one by one. |
| `ExprReadings.BracketsAreIdle` | src/envassure/expressions/parser.py:259-262 | Brackets around an expression change nothing. |
| `ExprReadings.TrailingRefused` | src/envassure/expressions/parser.py:160-168 | What cannot extend an expression may not follow it. |
| `ExprReadings.ChainsRefused` | src/envassure/expressions/parser.py:195-200 | Comparisons do not chain. |
| `ExprReadings.SlashedReads` | src/envassure/expressions/parser.py:85-88 | In either kind of quotes a backslash stands for the character behind it, whatever that is. |
| `ExprReadings.QuotesAlike` | src/envassure/expressions/parser.py:79-102 | Single and double quotes write the same literal. |
| `ExprLexemes.KeywordForExactly` | src/envassure/expressions/parser.py:114-119 | Keywords are recognised in whatever case. |
| `ExprReadings.EmptyExactly` | src/envassure/expressions/parser.py:323-329 | The error for an empty expression is given exactly for texts of spaces. |
| `ExprReadings.DefaultBound` | src/envassure/expressions/parser.py:239-257 | A quantifier written without a bound gets 64. |
| `ExprArithmetic.ArithmeticDefined` | src/envassure/expressions/evaluate.py:158-177 | Which operands arithmetic accepts, which error it raises on the others, and when the result is an integer. |
| `ExprArithmetic.OneArithmetic` | src/envassure/expressions/evaluate.py:166-173 | On integers, floats and mixtures the operators compute one arithmetic, that of the reals. |
| `ExprArithmetic.Addition` | src/envassure/expressions/evaluate.py:166-167 | `+` is commutative and associative with unit zero. |
| `ExprArithmetic.Subtraction` | src/envassure/expressions/evaluate.py:168-169 | `-` undoes `+`, and unary minus cancels. |
| `ExprArithmetic.Multiplication` | src/envassure/expressions/evaluate.py:170-171 | `*` is commutative with unit one and distributes over `+`. |
| `ExprArithmetic.Division` | src/envassure/expressions/evaluate.py:172-173 | `/` undoes `*`. |
| `ExprArithmetic.FloatFloorDivision` | src/envassure/expressions/evaluate.py:174-176 | Where a float is involved, `//` is whole and `%` lies on the divisor's side of zero. |
| `ExprArithmetic.Concatenation` | src/envassure/expressions/evaluate.py:159-160 | `+` on strings begins with the one and ends with the other. |
| `ExprArithmetic.Ordering` | src/envassure/expressions/evaluate.py:145-157 | `<` is a strict order whose ties are the equal numbers, and the other comparisons are told from it. |
| `ExprArithmetic.OrderAndAddition` | src/envassure/expressions/evaluate.py:145-167 | Adding keeps the order, and a number is below itself plus one with no integer between. |
| `ExprArithmetic.OrderDefined` | src/envassure/expressions/evaluate.py:145-150 | Numbers alone are ordered, and anything else is a type error. |
| `ExprEquality.SameExactly` | src/envassure/expressions/evaluate.py:141-144 | Python's `==` kind by kind: numbers and booleans by value, strings by characters, lists item by item. |
| `ExprEquality.DictsSameExactly` | src/envassure/expressions/evaluate.py:141-144 | Dicts are equal exactly when they have the same keys and equal values under each, in whatever order. |
| `ExprEquality.SameReflexive` | src/envassure/expressions/evaluate.py:141-144 | Equality is reflexive, |
| `ExprEquality.SameSymmetric` | src/envassure/expressions/evaluate.py:141-144 | symmetric, |
| `ExprEquality.SameTransitive` | src/envassure/expressions/evaluate.py:141-144 | and transitive, on values of any depth whose dicts hold each key once. |
| `ExprEquality.ContainsExactly` | src/envassure/expressions/evaluate.py:59-69 | A string contains its substrings, a list what equals an item, a dict its keys, and nothing else is a collection. |
| `ExprEquality.ListOrderExactly` | src/envassure/expressions/evaluate.py:202-205 | Lists compare at their first difference, or by length. |
| `ExprEquality.OrderExactly` | src/envassure/expressions/evaluate.py:202-205 | Strings compare by code point at their first difference, numbers and booleans by value, and no other kinds. |
| `ExprMeaning.TruthyExactly` | src/envassure/expressions/evaluate.py:80-95 | Seven values count as false. |
| `ExprMeaning.Connectives` | src/envassure/expressions/evaluate.py:133-136 | `and` and `or` with their short circuits, values and errors. |
| `ExprMeaning.Branches` | src/envassure/expressions/evaluate.py:55-58 | Which branch a conditional takes. |
| `ExprMeaning.StrictOperators` | src/envassure/expressions/evaluate.py:138-177 | Operands are evaluated left to right and applied in that order. |
| `ExprMeaning.RootsAreRead` | src/envassure/expressions/evaluate.py:98-128 | Which document each path root reads; a missing key gives null. |
| `ExprMeaning.PathsCompose` | src/envassure/expressions/evaluate.py:100-115 | A path is read part by part. |
| `ExprMeaning.NullAbsorbs` | src/envassure/expressions/evaluate.py:119-120 | Null swallows every further segment. |
| `ExprMeaning.AttributesAreAsked` | src/envassure/expressions/evaluate.py:123-128 | Other values are asked for an attribute, and have it or fail. |
| `ExprMeaning.QuantifiersRange` | src/envassure/expressions/evaluate.py:230-247 | What a quantifier ranges over, its bound, and its value over nothing. |
| `ExprMeaning.ArgumentsInOrder` | src/envassure/expressions/evaluate.py:195 | Arguments keep their places, and the first error is the call's. |
| `ExprMeaning.CallsAreListed` | src/envassure/expressions/evaluate.py:190-194 | Only listed functions are called, and none without an argument. |
| `ExprMeaning.LengthExactly` | src/envassure/expressions/evaluate.py:198-199 | What `len` counts and refuses. |
| `ExprMeaning.AbsoluteExactly` | src/envassure/expressions/evaluate.py:200-201 | What `abs` yields. |
| `ExprMeaning.IntegerExactly` | src/envassure/expressions/evaluate.py:210-211 | `int` cuts off the fraction towards zero. |
| `ExprMeaning.FloatExactly` | src/envassure/expressions/evaluate.py:212-213 | `float` keeps the value. |
| `ExprMeaning.ConversionsRefuse` | src/envassure/expressions/evaluate.py:210-213 | Null, lists and dicts are no numbers. |
| `ExprMeaning.ConversionsAreTheHosts` | src/envassure/expressions/evaluate.py:206-221 | The other conversions are the host's, applied to the text of the value. |
| `ExprMeaning.KeysAndValues` | src/envassure/expressions/evaluate.py:214-217 | `keys` and `values` list a dict in one order. |
| `ExprMeaning.ChoicesExactly` | src/envassure/expressions/evaluate.py:202-205 | What `min` and `max` range over. |
| `ExprTypes.InferenceDefinite` | src/envassure/expressions/types.py:70-113 | Inference leaves open only paths and conditionals whose branches differ, and fails only on unknown functions. |
| `AuthSyntax.SplitTopLoop` | src/envassure/runtime/authorization.py:104-145 | The index loop cuts exactly at the separators outside brackets, or finds none. |
| `AuthSyntax.SplitTop` | src/envassure/runtime/authorization.py:104-145 | Every piece is shorter than the text, so the recursion of the parser terminates on every string. |
| `AuthSyntax.Pieces` | src/envassure/runtime/authorization.py:104-145 | Cutting never lengthens a piece and always yields one. |
| `AuthRoundTrip.CompileInvertsPrint` | src/envassure/runtime/authorization.py:96-200 | Compilation inverts the printer on every and/or/atom tree with at least two children per combinator and atom values free of spaces and brackets. |
| `AuthRoundTrip.CutInside` | src/envassure/runtime/authorization.py:104-145 | Inside balanced brackets nothing is cut. |
| `AuthEval.AuthorizeExactly` | src/envassure/runtime/authorization.py:203-219 | ALLOW is returned exactly when the string compiles and its tree is true, as a Boolean formula, of the atoms that allow on their own. |
| `AuthEval.AllowIsTruth` | src/envassure/runtime/authorization.py:222-257 | The same for a compiled tree: three-valued evaluation allows exactly when the formula is true. |
| `AuthEval.OrderIsIrrelevant` | src/envassure/runtime/authorization.py:229-257 | The formula does not depend on the order of children at any level. |
| `AuthEval.AllowIgnoresOrder` | src/envassure/runtime/authorization.py:229-257 | Neither, therefore, does ALLOW. |
| `AuthOrder.OrderMattersExactly` | src/envassure/runtime/authorization.py:222-257 | Whether a tree denies or is undecided can depend on child order, and exactly when: every permutation of children, at all levels, reports one decision if and only if the tree has a single option, computed from its atoms (for `and` the options of its refusing children; for `or` undecided if some child can be, denied if every child can be). |
| `AuthOrder.OptionsExactly` | src/envassure/runtime/authorization.py:222-257 | A decision is an option of the tree if and only if some permutation of its children, at all levels, reports it. |
| `AuthOrder.Attained` | src/envassure/runtime/authorization.py:229-257 | The permutation that reports a given option. |
| `AuthOrder.ReportIsOption` | src/envassure/runtime/authorization.py:222-257 | What the evaluator reports is an option. |
| `AuthOrder.OptionsIgnoreOrder` | src/envassure/runtime/authorization.py:229-257 | Options do not change under reordering, repeated children included. |
| `AuthOrder.FlatOrderMattersExactly` | src/envassure/runtime/authorization.py:229-234 | For a conjunction of atoms order is free exactly when no atom denies while another is undecided. |
| `AuthOrder.RefusalDependsOnOrder` | src/envassure/runtime/authorization.py:380-391 | A passed bound beside an unreadable one: denied one way round, indeterminate the other. |
| `AuthReasons.ReasonMattersExactly` | src/envassure/runtime/authorization.py:222-257 | For decision and reason code together: every permutation of children, at all levels, reports one result if and only if the tree has a single result, computed from its atoms (for `and` the results of its refusing children; for `or` one result per decision it can report). |
| `AuthReasons.ResultsExactly` | src/envassure/runtime/authorization.py:222-257 | A result can be reported by some permutation exactly when it is among those computed from the atoms. |
| `AuthReasons.ResultsIgnoreOrder` | src/envassure/runtime/authorization.py:229-257 | These results do not change under reordering. |
| `AuthReasons.FlatReasonMattersExactly` | src/envassure/runtime/authorization.py:229-234 | For a conjunction of atoms order is free exactly when all its refusals are the same. |
| `AuthReasons.AllowIsAuthorized` | src/envassure/runtime/authorization.py:229-257 | Every ALLOW carries the code of an authorized request. |
| `AuthReasons.ReasonDependsOnOrder` | src/envassure/runtime/authorization.py:263-313 | A revoked role beside a missing one is denied either way, as revoked or as denied by position. |
| `AuthEval.AuthorizeMonotone` | src/envassure/runtime/authorization.py:203-377 | More roles, capabilities, credentials, delegation rules or grants and fewer revocations never lose an ALLOW, so more revocations never create one. |
| `AuthEval.TokenExactly` | src/envassure/runtime/authorization.py:263-313 | A role, capability, grant, delegation or authority is granted exactly when nothing revokes it and the actor shows it, bare or tagged, or the runtime view holds it. |
| `AuthEval.HoldingSuffices` | src/envassure/runtime/authorization.py:278-295 | A token among the actor's roles, capabilities or credentials is granted unless revoked. |
| `AuthEval.ScopeReachesDown` | src/envassure/runtime/authorization.py:315-364 | A granted scope allows exactly itself and the scopes below it, and a scope above it is denied as an expansion. |
| `AuthEval.CoversTransitive` | src/envassure/runtime/authorization.py:343-346 | What a covered scope covers is covered. |
| `AuthEval.RevocationWins` | src/envassure/runtime/authorization.py:263-276 | A revoked token is denied whatever else the actor holds. |
| `AuthEval.ActorDischarges` | src/envassure/runtime/authorization.py:71-93 | The loop over the candidates decides exactly whether some of them matches the token. |
| `AuthEval.CandidatesGrow` | src/envassure/runtime/authorization.py:60-93 | The candidates grow with roles, capabilities, credentials and delegation targets. |
| `AuthAtoms.TimeRunsOneWay` | src/envassure/runtime/authorization.py:380-436 | Once `expires` or `before` refuses, a later time never allows it, and once `after` allows, a later time never refuses it. |
| `AuthAtoms.TimesExactly` | src/envassure/runtime/authorization.py:415-436 | `expires` allows exactly where `after` refuses; at the bound itself it allows while `before` and `after` refuse; a refusal is an expiry. |
| `AuthAtoms.TimesUnread` | src/envassure/runtime/authorization.py:383-411 | An unreadable bound or present is undecided, and a missing present is denied, exactly. |
| `AuthAtoms.TimeIsImpersonal` | src/envassure/runtime/authorization.py:222-260 | A time atom does not depend on the actor, and no other atom is ever undecided. |
| `AuthAtoms.AttributesExactly` | src/envassure/runtime/authorization.py:315-377 | When a policy, tenant or scope requirement is met: the runtime's own attribute, or without one what the actor shows or holds under its tag. |
| `AuthAtoms.RevokedExactly` | src/envassure/runtime/authorization.py:263-276 | Which rules revoke which requirements. |
| `AuthAtoms.EachSourceSuffices` | src/envassure/runtime/authorization.py:71-93 | An authority, a delegated target and a token of the runtime view each suffice. |
| `AuthAtoms.TokensAreSpelledFreely` | src/envassure/runtime/authorization.py:55-57 | A token is known by its lower-case letters, one of three prefixes left off. |
| `AuthAtoms.LinesAreKept` | src/envassure/runtime/authorization.py:55-57 | Over several lines no prefix is left off. |
| `AuthAtoms.SecondComparisonIsIdle` | src/envassure/runtime/authorization.py:88-92 | The second of the two token comparisons never decides. |
| `AuthAtoms.PrefixedRule` | src/envassure/runtime/authorization.py:60-65 | A delegation rule with one of six prefixes names the rest of it; spaces in front shift the cut. |
| `AuthAtoms.ArrowedRule` | src/envassure/runtime/authorization.py:66-67 | A chain of arrows names every link. |
| `AuthAtoms.UncompiledIsUndecided` | src/envassure/runtime/authorization.py:212-218 | A string that does not compile is undecided. |
| `AuthSpellings.PrefixesInAnyCase` | src/envassure/runtime/authorization.py:179-192 | Each kind goes by its prefix or an older one, in whatever case. |
| `AuthSpellings.BareRolesExactly` | src/envassure/runtime/authorization.py:194-200 | Without a colon, letters and digits with dashes and underscores name a role, and anything else is unsupported. |
| `AuthSpellings.BareRoleByLetters` | src/envassure/runtime/authorization.py:197 | The letters test, on the text without dashes and underscores. |
| `AuthSpellings.UnknownPrefixRefused` | src/envassure/runtime/authorization.py:179-200 | With a colon, an unknown prefix is unsupported. |
| `AuthSpellings.TimesInAnyCase` | src/envassure/runtime/authorization.py:167-177 | A time is an operator in whatever case, a colon and a bound; anything else after `temporal:` is unsupported. |
| `AuthSpellings.SplitsInAnyCase` | src/envassure/runtime/authorization.py:104-145 | Separators are found in whatever case. |
| `AuthSpellings.BlanksAreDropped` | src/envassure/runtime/authorization.py:143-144 | A blank between two separators is no operand. |
| `Reachability.BoundedReachability` | src/envassure/analysis/static.py:192-225 | Every recorded depth is the true distance from the seeds, truncated by either budget or not; within the expansion budget exactly the actions up to the depth bound are recorded; without truncation exactly the reachable ones; and truncation is reported exactly when the bound or the budget stopped the search; with distinct seeds it is charged at most once for every edge out of a recorded action, and exactly so without truncation. |
| `Reachability.AnalyzeReachability` | src/envassure/analysis/static.py:360-380 | Without truncation an action is reported if and only if no path leads to it from any seed; within the expansion budget, truncated or not, if and only if no path of at most the bounded length does, as the finding says; a seed is never reported. |
| `Reachability.CheckUnreachableActions` | src/envassure/analysis/static.py:360-380 | Reports the declared actions that were not recorded, in declaration order. |
| `Reachability.DistanceIsShortest` | src/envassure/analysis/static.py:197-216 | A distance is the number of edges of a shortest path. |
| `Reachability.LevelsComplete` | src/envassure/analysis/static.py:203-216 | Everything nearer than the head of the queue has been recorded. |
| `Reachability.NewIsNextLevel` | src/envassure/analysis/static.py:214-216 | A newly met successor of the head lies exactly one level deeper. |
| `Reachability.ExpandHead` | src/envassure/analysis/static.py:209-216 | The inner loop records all successors of the head unless the expansion budget runs out, charges one for each it tries, and revises no depth. |
| `Reachability.Complete` | src/envassure/analysis/static.py:203-218 | When nothing reached the depth bound, an empty queue means that exactly the reachable actions are recorded. |
| `Reachability.Exhausted` | src/envassure/analysis/static.py:203-218 | An empty queue means every level up to the bound is there. |
| `Reachability.UnreachedMembers` | src/envassure/analysis/static.py:366-368 | What is reported is declared and unrecorded, and all of that is reported. |
| `Reachability.SeedsExactly` | src/envassure/analysis/static.py:183-189 | An action is a seed when it is known and some actor lists it, or when no actor lists anything. |
| `Reachability.BudgetExactly` | src/envassure/analysis/static.py:211 | The expansion budget is the bound for each action, and for one where there is none. |
| `StateTree.GetPath` | src/envassure/runtime/observations.py:447-453 | The walk down the parts yields the subdocument at the path, or the missing marker. |
| `StateTree.GetSetBelow` | src/envassure/runtime/observations.py:456-465 | After writing, every path through the written one reads the written value. |
| `StateTree.GetSetApart` | src/envassure/runtime/observations.py:456-465 | After writing, every path neither above nor below reads as before. |
| `StateTree.GetPopBelow` | src/envassure/runtime/observations.py:468-479 | After removing, no path through the removed one resolves. |
| `StateTree.GetPopApart` | src/envassure/runtime/observations.py:468-479 | After removing, every path neither above nor below reads as before. |
| `StateTree.GetPopAbove` | src/envassure/runtime/observations.py:468-479 | After removing, every path above still reads a dict, or the leaf it read before. |
| `StateTree.SameEverywhere` | src/envassure/runtime/observations.py:447-453 | Documents that answer every path alike are the same. |
| `Projection.CollectExactly` | src/envassure/runtime/observations.py:322-339 | What an allow-list result holds at every path: the state's own subdocument under a shown path, a dict on the way to one, and nothing else. |
| `Projection.LeavesAreConfined` | src/envassure/runtime/observations.py:322-339 | Every leaf of the result is the state's own leaf at that path, under a visible path neither denied nor omitted. |
| `Projection.NonInterference` | src/envassure/runtime/observations.py:322-339 | Two states that agree on the active visible paths give one outcome, error or not. |
| `Projection.FailsOnMissing` | src/envassure/runtime/observations.py:331-338 | The projection fails exactly when the policy is to fail and an active visible path is missing. |
| `Projection.ResolvesExactly` | src/envassure/runtime/observations.py:322-339 | When any path, an omitted one too, resolves in the result. |
| `Projection.DeniedRootVanishes` | src/envassure/runtime/observations.py:324-329 | A deny label or omitted path that names a root hides everything below the root. |
| `Projection.OmittedChildIsShown` | src/envassure/runtime/observations.py:328-329 | An omitted path below a visible one is shown: omission matches whole visible paths and roots only. |
| `ProjectionRun.ProjectState` | src/envassure/runtime/observations.py:292-364 | The whole method meets its specification: the two errors, the empty documents of a refusal and of an empty allow-list, the allow-list or trimmed base, and the transformations applied to it. |
| `ProjectionRun.ProjectionDisclosesOnlyPermitted` | src/envassure/runtime/observations.py:292-364 | Whatever leaf the outcome holds, wherever renaming put it, is the redaction mark or a leaf of the state under an active visible path (allow-list) or outside every omitted path and deny label (omit-only); and none without access. |
| `ProjectionRun.ProjectionNonInterference` | src/envassure/runtime/observations.py:300-364 | In either mode, states that agree on all that the projection may show (the active visible paths, or everything outside the hidden ones) are projected alike through access control and transformations, error or not. |
| `ProjectionRun.ProjectionIsUnique` | src/envassure/runtime/observations.py:292-364 | The outcome is determined, although deny labels come in no particular order. |
| `ProjectionRun.CollectVisible` | src/envassure/runtime/observations.py:322-339 | The allow-list loop, with its early failure, yields the specified document. |
| `ProjectionRun.TrimState` | src/envassure/runtime/observations.py:340-345 | In omit-only mode no omitted path or deny label resolves and every other path answers as in the state. |
| `ProjectionRun.TrimIsUnique` | src/envassure/runtime/observations.py:340-345 | There is one such document, so the order of removal is of no consequence. |
| `ProjectionRun.UnrelatedUnchanged` | src/envassure/runtime/observations.py:340-345 | A path unrelated to every hidden one keeps its whole subdocument. |
| `ProjectionRun.TrimNonInterference` | src/envassure/runtime/observations.py:340-345 | States that differ under hidden paths only are trimmed to one document. |
| `ProjectionRun.ApplyTransformations` | src/envassure/runtime/observations.py:350-362 | The loop applies the transformations in order. |
| `ProjectionRun.TransformDisclosesNothing` | src/envassure/runtime/observations.py:350-362 | Transformations show no leaf that was not there but the redaction mark, and without a rename move none. |
| `ProjectionRun.StepEffect` | src/envassure/runtime/observations.py:350-362 | One transformation leaves a path hidden exactly when it hides it, or has no effect on it and it was hidden: omitting or redacting at or above it hides; a rename shows what it moves there, unless that is missing or the mark, and otherwise hides what it moves away. |
| `ProjectionRun.MaskExactly` | src/envassure/runtime/observations.py:350-362 | After all transformations a path is gone or the mark if and only if the last one with an effect on it hid it, or none had an effect and it was hidden from the start. |
| `ProjectionRun.MaskStaysExactly` | src/envassure/runtime/observations.py:350-362 | What one transformation omits or redacts is still hidden after every later one if and only if none of these shows something there. |
| `ProjectionRun.MaskLasts` | src/envassure/runtime/observations.py:351-362 | In particular when later renames keep clear of the path. |
| `ProjectionRun.RenameUnmasks` | src/envassure/runtime/observations.py:356-362 | An instance of the other case: renaming onto a redacted path brings a value back. |
| `ProjectionRun.NothingToTransform` | src/envassure/runtime/observations.py:346-348 | Leaving early with the empty document skips transformations that would have changed nothing. |
| `ProjectionEffects.OmitReads` | src/envassure/runtime/observations.py:351-352 | Omitting leaves nothing at or below the path, and every other path as it was. |
| `ProjectionEffects.RedactReads` | src/envassure/runtime/observations.py:353-355 | Redacting what is there leaves the mark, with nothing below it; where nothing is, nothing changes. |
| `ProjectionEffects.RenameReads` | src/envassure/runtime/observations.py:356-362 | Renaming moves the whole subdocument to the target and leaves nothing at the path. |
| `ProjectionEffects.GoneExactly` | src/envassure/runtime/observations.py:350-362 | After all transformations a path is gone if and only if the last one that cleared or filled it cleared it. |
| `ProjectionEffects.MarkedExactly` | src/envassure/runtime/observations.py:350-362 | And it holds the mark if and only if it is hidden and not gone. |
| `ProjectionEffects.ActiveExactly` | src/envassure/runtime/observations.py:324-329 | A visible path is active unless a deny label or omitted path names it or its root. |
| `ProjectionEffects.OutcomesExactly` | src/envassure/runtime/observations.py:292-348 | Each error in exactly its case, and the empty outcomes. |
| `Reconciliation.Reconcile` | src/envassure/reconciliation/engine.py:135-198 | The loop over the groups yields the specified report: preferred, ranked and accepted facts, superseded and rejected identifiers. |
| `Reconciliation.RejectLosers` | src/envassure/reconciliation/engine.py:186-188 | All facts of a conflicted group but the head are superseded and rejected, in rank order. |
| `Reconciliation.GroupFacts` | src/envassure/reconciliation/engine.py:321-332 | Groups hold their facts in order of arrival and are listed in order of first appearance. |
| `Reconciliation.DistinctValues` | src/envassure/reconciliation/engine.py:335-343 | The distinct values in order of first appearance. |
| `Reconciliation.ConflictedExactly` | src/envassure/reconciliation/engine.py:143 | A group is conflicted exactly when two of its facts differ in value. |
| `Reconciliation.LastIndex` | src/envassure/reconciliation/engine.py:354 | The rank of an evidence class is its last index in the order. |
| `Reconciliation.HeadIsLeastRanked` | src/envassure/reconciliation/engine.py:350-360 | The ranking is a permutation of the group, and its head is least by rank and identifier. |
| `ReconciliationLaws.AcceptedExactly` | src/envassure/reconciliation/engine.py:189-198 | With distinct identifiers, the accepted facts are exactly the first facts, by precedence rank then identifier, of the groups whose values agree. |
| `ReconciliationLaws.OneVerdictPerGroup` | src/envassure/reconciliation/engine.py:143-198 | Each agreeing group has exactly one accepted fact, its first; a disputed group has none. |
| `ReconciliationLaws.RejectedExactly` | src/envassure/reconciliation/engine.py:174-188 | The rejected identifiers are exactly those of the facts in disputed groups that do not come first; superseded and rejected are one list. |
| `ReconciliationLaws.PreferredExactly` | src/envassure/reconciliation/engine.py:174-198 | The preferred facts are the accepted ones and the heads of disputed groups, the latter as unresolved candidates. |
| `ReconciliationLaws.RankedPermutesFacts` | src/envassure/reconciliation/engine.py:141-142 | The ranked candidates are the facts, reordered: nothing is lost or counted twice. |
| `ReconciliationLaws.ArrivalIsIrrelevant` | src/envassure/reconciliation/engine.py:135-198 | The same facts in any order give the same accepted, preferred and rejected ones, and the same ranking of every group. |
| `ReconciliationTies.AcceptedIgnoresArrivalExactly` | src/envassure/reconciliation/engine.py:135-198 | The accepted facts are the same under every permutation of the facts if and only if, in every undisputed group, the facts tied for first are accepted as one and the same fact. |
| `ReconciliationTies.PreferredIgnoresArrivalExactly` | src/envassure/reconciliation/engine.py:174-198 | The preferred facts are the same under every permutation if and only if that holds of every group, disputed or not. |
| `ReconciliationTies.RejectedIgnoresArrival` | src/envassure/reconciliation/engine.py:184-188 | The rejected identifiers are the same under every permutation, ties or none. |
| `ReconciliationTies.TiedForFirst` | src/envassure/reconciliation/engine.py:350-360 | Facts tie for first exactly when they share the least rank and the identifier. |
| `ReconciliationTies.DistinctIdsSettle` | src/envassure/reconciliation/engine.py:350-360 | Distinct identifiers meet these conditions. |
| `Sorting.EarliestLeads` | src/envassure/reconciliation/engine.py:360 | A stable sort puts the earliest of the elements tied for least in front. |
| `ReconciliationLaws.ArrivalBreaksTies` | src/envassure/reconciliation/engine.py:350-360 | Under any precedence order, of two facts of one claim with one value, one identifier and one rank, the earlier is accepted. |
| `ReconciliationLaws.PrecedenceSettlesNothing` | src/envassure/reconciliation/engine.py:83-93 | Under any two precedence orders the same claims are accepted with the same values. |
| `ReconciliationLaws.DisputesPersist` | src/envassure/reconciliation/engine.py:143-188 | More facts never make a disputed claim accepted. |
| `ReconciliationStatus.StatusTells` | src/envassure/reconciliation/engine.py:174-198 | Accepted facts are marked accepted and free of conflict, the other preferred ones candidates and unresolved; nothing else of a fact changes. |
| `ReconciliationStatus.OneClaimExactly` | src/envassure/reconciliation/engine.py:321-332 | What makes two facts one claim. |
| `ReconciliationStatus.PrecedenceDecides` | src/envassure/reconciliation/engine.py:350-360 | The evidence class listed earlier comes first, an unlisted one last, and within a class the smaller identifier. |
| `ReconciliationStatus.RankedInOrder` | src/envassure/reconciliation/engine.py:350-360 | The candidates of a group are listed in that order. |
| `Sorting.StringLeqExactly` | src/envassure/reconciliation/engine.py:360 | Identifiers compare by code point at their first difference. |
| `AliasGroups.DetectExplicitAliases` | src/envassure/reconciliation/engine.py:384-413 | The groups are the connected components of at least two identifiers, each sorted, pairwise disjoint; two different identifiers share a group if and only if a chain of alias facts joins them; groups come in the order their first members are mentioned. |
| `AliasGroups.Component` | src/envassure/reconciliation/engine.py:403-411 | The stack search terminates despite revisits and finds exactly the identifiers joined to its start. |
| `AliasGroups.BuildExplicit` | src/envassure/reconciliation/engine.py:387-397 | The adjacency sets hold every alias fact both ways and nothing else, with their keys in order of first mention. |
| `AliasGroups.SortedGroup` | src/envassure/reconciliation/engine.py:412-413 | A group lists its component without repetition in code-point order. |
| `AliasGroups.VisitStep` | src/envassure/reconciliation/engine.py:407-411 | Visiting an identifier keeps what the search knows: all joined, and no link leaves the component but onto the stack. |
| `AliasGroups.SkipStep` | src/envassure/reconciliation/engine.py:405-406 | Dropping a visited identifier loses nothing, as earlier components are closed. |
| `AliasGroups.GroupIsUnique` | src/envassure/reconciliation/engine.py:400-413 | A group is determined by any of its members, in whatever order neighbours are stacked. |
| `AliasGroups.JoinedIsEquivalence` | src/envassure/reconciliation/engine.py:396-397 | Being joined is an equivalence, as every alias fact is read both ways. |
| `AliasGroups.RightNamesSubject` | src/envassure/reconciliation/engine.py:389-395 | What an alias fact names is written as the subject of a fact about it would be. |
| `AliasGroups.LeftTells` | src/envassure/reconciliation/engine.py:389 | Names of kinds without a colon are told apart. |
| `AliasGroups.LinkedExactly` | src/envassure/reconciliation/engine.py:387-397 | Two names are linked exactly by a fact with one of the three alias claims. |

## Left out

- Floating-point rounding, the log-sum-exp and lgamma stabilisation, and the normal quantile: exact reals, with the level as a parameter.
- Floats and Decimals in canonical JSON, whose `.17g` form is not the shortest form of RFC 8785 section 3.2.2.3; lone surrogates in strings; SHA-256.
- Coverage.PairedIntervalCoverage: stated for the interval widened by 2^-70 on each side, because the bare one can fall short of 1 - alpha: at levels below 2^-72 it does (BareCoverage.BareIntervalCanFallShort). In floats `1 - cdf(z)` moves in steps of 2^-53, so no such level is ever reached there.
- BareCoverage.BareIntervalCoverage: gives up n * 2^-69 of the confidence, for the same reason; whether larger levels lose any of it is not settled here.
- ExprTypes.InferenceSound: says nothing about NUMBER where `+`, `min` or `max` decides the value, because it can be false there; ExprTypes.SumTypeExactly and ExprTypes.ExtremeTypeExactly say when it holds.
- Minimizer.MinimizeCounterexample: the failure predicate answers the same for the same sequence every time.
- Other comparison dimensions, their aggregation, and the wording of verdict notes.
- The minimizer's float cut positions `int(i * size)`: exact integer cuts `i * len / n`.
- Expression values that are sets, tuples or host objects; NaN and infinities; the host's own conversions, which are parameters; unrecognised node and operator kinds.
- ExprLexer.Tokenize: letters, digits and case of words are ASCII, because Dafny has no Unicode tables.
- AuthEval.ActorDischarges: tokens are lower-cased by ASCII rules for the same reason.
- Python's limit of 4300 digits on the text of an integer, past which `str` raises.
- Python's recursion limit, which deep expressions and authorization strings can reach.
- `parse_structured`, `parse_effect` and literal coercion: guesses about strings and single branches.
- Date parsing in temporal atoms: reading a date is a parameter, and dates are instants on one line.
- `_action_successors`: the graph is given.
- Sharing of nested dicts between a state and its projection: documents are values, which the source's deep copies make faithful; `_set_path` and `_pop_path` are functions on values rather than updates in place.
- `compile_observation`: its output is the input of the model; paths of the state are read as given.
- Ambiguity and diagnostic records, and the missing timeout, retry and idempotency text of reconciliation.
- Fact values themselves: two values are equal when their fingerprints are, as in the source.
- Name-based alias groups: a grouping by normalised text, without a graph.
- The event-sourced engine, packaging, reports, connectors, the command line and schema checks.
