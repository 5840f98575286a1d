# Grammar intersection, inside weights and ambiguity location

This project models the grammar-algebra core of `proj.py`, a tool that
estimates word-by-word surprisal of a sentence under a probabilistic
context-free grammar and locates the word that resolves a local syntactic
ambiguity. The model covers:

- the grammar records (`Symbol`, `NT`, `T`, `Rule`) with their rendering,
  their name-only `==` and the rule equality used for duplicate checks
  (`grammar.dfy`, module `Grammar`);
- `remove_unreachable_rules`, the worklist pruning pass (`prune.dfy`,
  module `Prune`);
- `find_terminal_rule` and `intersect`, a restricted Bar-Hillel
  intersection of the grammar with a word prefix, followed by pruning from
  the start category over the whole prefix (`intersect.dfy`, module
  `Intersection`);
- `inside`, the total derivation weight of a grounded nonterminal, with
  its closed form for direct first-child self-recursion (`inside.dfy`,
  module `InsideWeights`);
- `get_terminal_rules`, `get_ambiguous_terminals` and `ambiguity_finder`,
  which picks the first word of maximal surprisal and diffs the ambiguous
  terminal rules of two intersected grammars (`ambiguity.dfy`, module
  `Ambiguity`).

The imperative loops of the source are Dafny methods. Each method is
proved equal to a specification function (`Matching`, `WordSeeds`,
`Closure`, `Reachable`, `TerminalRules`, `Ambiguous`, `Reported`). The
properties are lemmas about those functions. The lists the source grows
while iterating over them (`NonTerminals` in `intersect`, `nont` in
`remove_unreachable_rules`) are index-driven `while` loops that re-read the
length on every step. `inside` is a recursive function with a recursion
budget.

Symbols are `T(name)` or `NT(name, s1, s2)`. The span sentinel `-1` marks
an ungrounded nonterminal. `Str` is the rendering: `name`, or
`name_s1-s2` for a grounded nonterminal. Most identity checks of the source
compare renderings, and so does the model. `StrInjective` shows that
rendering identifies well-spanned nonterminals whose names hold no
underscore.

The closure loop of `intersect` terminates because every rule it can append
has a key (rendered target, rendered first output, rendered second output)
drawn from a finite set. The termination measure is the number of keys not
yet listed.

Two behaviours of the code are worth knowing when reading the model:

- `get_ambiguous_terminals` (proj.py:280-288) starts its inner loop at the
  outer index, so each rule is compared with itself, and the test requires the
  SAME target name and span. As a result, every terminal rule with a non-empty
  target span is reported as ambiguous, whether or not another rule shares its
  span (`Ambiguity.AmbiguousMembers`). The docstring of `ambiguity_finder`
  (proj.py:299) describes terminal rules that output the same word at the
  same index with different target symbols; the model follows the code.
- The result of `remove_unreachable_rules` is a selection of the input rules
  in worklist order, not in input order (`Prune.Selected`).

## Model

| member | source | states |
|---|---|---|
| Grammar.StrInjective | proj.py:15-31 | two well-spanned nonterminals with underscore-free names render alike exactly when they are the same symbol |
| Grammar.RenderedIdentityRefinesName | proj.py:12-31 | rendering alike implies `==` (same name); two instances of one category over different spans are `==` yet render differently |
| Grammar.NatToStringShape | proj.py:18 | the decimal rendering of a span bound is a non-empty run of digits, with two or more digits exactly from ten on |
| Grammar.Str | proj.py:15-42 | `str` of a symbol: `name` for a terminal or an ungrounded nonterminal, `name_s1-s2` otherwise; its contract is carried by `Grammar.StrBareName` and `Grammar.StrInjective` |
| Grammar.StrBareName | proj.py:15-42 | the rendering starts with the name, and is the bare name exactly for a terminal or an ungrounded nonterminal |
| Grammar.SameName | proj.py:12-13 | symbol `==`: the names agree, whatever the kind and span; its contract is carried by `Grammar.RenderedIdentityRefinesName` |
| Grammar.IsTerminal | proj.py:66-67 | `Rule.is_terminal`: every output is a terminal; its contract is carried by `Grammar.TerminalIffNotBinary` |
| Grammar.RuleEq | proj.py:69-73 | `Rule.__eq__`: rendered targets agree and rendered outputs agree position by position, the weight ignored; its contract is carried by `Grammar.RuleEqOnBinary` |
| Grammar.SameRendering | proj.py:51-52 | the `str(t1) == str(t2)` comparison of proj.py:324: weight, rendered target and rendered outputs agree; `Grammar.SameRenderingStr` proves it implies equality of the rule strings, and `Grammar.RuleStrSameRendering` proves the converse when the rendering of the two weights compared is injective and comma-free and the names are clean |
| Grammar.RuleStr | proj.py:51-52 | `Rule.__str__` as a string: `v, lhs => [o1, o2, …]`, the weight rendered by a parameter function and the outputs by their `str`; its contract is carried by the two lemmas below |
| Grammar.SameRenderingStr | proj.py:51-52 | rules that agree component-wise have the same `str`, whatever the weight rendering |
| Grammar.JoinStrInjective | proj.py:51-52 | two output lists with non-empty, comma-free names whose list renderings agree have the same length and agree position by position |
| Grammar.RuleStrSameRendering | proj.py:51-52 | conversely, when the weight rendering is injective and comma-free on the two weights compared and no name is empty or holds `,` or `=`, two rules with the same `str` agree component-wise |
| Grammar.TerminalIffNotBinary | proj.py:66-67 | on the handled rule shapes, `is_terminal` holds exactly for the rules that are not binary |
| Grammar.RuleEqOnBinary | proj.py:69-73 | on two-output rules, the rule equality of the model is exactly the source's comparison of rendered target, first output and second output, with the weight ignored |
| Intersection.MatchingMembers | proj.py:77-83 | the matched rules are exactly the grammar rules whose first output has the word's name |
| Intersection.FindTerminalRule | proj.py:77-83 | the loop returns the matched rules in grammar order |
| Intersection.SeedWord | proj.py:101-106 | appends every matched rule grounded at `(i, i+1)` and keeps the target list aligned with the rule list |
| Intersection.SeedWords | proj.py:100-106 | the first seeding loop lists, word by word, the matched rules grounded at each word's span |
| Intersection.SeedPlaceholders | proj.py:108-113 | the second seeding loop appends every terminal grammar rule grounded at `(n, n)`, in grammar order |
| Intersection.SeedsExactly | proj.py:100-113 | a rule is seeded exactly when it is a word rule (a grammar rule whose first output names word `i`, grounded at `(i, i+1)`) or a terminal grammar rule grounded at `(n, n)` |
| Intersection.WordRuleIsTerminal | proj.py:76-83 | when no word is named like a first-output nonterminal of a binary grammar rule, each word rule is a one-output terminal rule producing that word over its span |
| Intersection.DerivedShape | proj.py:100-127 | every listed rule is well formed, has a target `0 <= s1 <= s2 <= n`, and carries the name and weight of a grammar rule |
| Intersection.SaturateClosed | proj.py:115-133 | the `while clear` loop exits only on a list closed under every binary grammar rule and every pair of listed targets that name-match and meet |
| Intersection.ClosureFacts | proj.py:100-133 | the closure starts with the seeds, lists only rules of the three forms, never appends a rule equal to one already listed, and is closed under the binary rules |
| Intersection.IntersectFacts | proj.py:85-136 | every result rule has one of the three forms and a target inside `[0, n]`; no two result rules are equal; the result is empty exactly when the closure has no rule for the goal `start_0-n`; otherwise its first rule targets the goal |
| Intersection.CombineWith | proj.py:122-133 | the innermost loop over the growing target list appends exactly the combinations `Sweep` defines and sets the flag exactly when it appends |
| Intersection.CombinePairs | proj.py:121-133 | the loop over first targets for one binary grammar rule computes `SweepAll` and sets the flag exactly when it appends |
| Intersection.CombinePass | proj.py:116-133 | one pass over the grammar computes `PassFrom`; the flag is set exactly when the list grew |
| Intersection.Intersect | proj.py:85-136 | `intersect` returns the closure of the seeds pruned from the goal (`IntersectResult`) |
| Prune.QueueOutputs | proj.py:156-159 | a kept binary rule queues each output whose rendering is not queued yet, first output first |
| Prune.ScanGrammar | proj.py:151-163 | one scan keeps each rule whose rendered target matches the worklist symbol and that is not already kept, queueing the outputs of kept binary rules |
| Prune.RemoveUnreachableRules | proj.py:139-165 | the worklist loop computes `Reachable` |
| Prune.ReachableSound | proj.py:148-163 | every kept rule is an input rule; no two kept rules are equal; each kept rule targets the initial symbol or an output of a binary rule kept before it |
| Prune.ReachableComplete | proj.py:150-163 | every input rule whose target renders as the initial symbol, or as an output of a kept binary rule, is kept (up to rule equality) |
| Prune.ReachableEmptyIff | proj.py:148-165 | the result is empty exactly when no input rule targets the initial symbol; otherwise its first rule targets it |
| Prune.ReachableIdempotent | proj.py:139-165 | the result is well formed, and pruning it again from the same initial symbol returns it unchanged |
| InsideWeights.Inside | proj.py:168-194 | `inside` within a recursion budget: 1 for a terminal or zero-width symbol, otherwise `sum / (1 - x)` over the rules targeting the symbol; its contract is carried by `InsideWeights.InsideFuel`, `InsideWeights.InsideSolvesLoop`, `InsideWeights.InsideWithoutSelfLoop` and `InsideWeights.InsideOfPreterminal` |
| InsideWeights.InsideFuel | proj.py:168-194 | a weight computed within some recursion budget is the same under any larger budget |
| InsideWeights.InsideSolvesLoop | proj.py:179-194 | the weight `w` of a non-trivial symbol solves `w = sum + x * w` with `x != 1`: the closed form `sum / (1 - x)` is a solution of the fixpoint equation of the self-recursion |
| InsideWeights.NoSelfLoopKeepsX | proj.py:183-190 | without a rule whose first output renders as the symbol, the self-loop factor `x` stays 0 |
| InsideWeights.InsideWithoutSelfLoop | proj.py:179-194 | with no self-recursive rule, the weight is the plain `sum` |
| InsideWeights.InsideOfPreterminal | proj.py:179-194 | a symbol all of whose rules have one output weighs the total of those rules' weights |
| Ambiguity.TerminalRulesMembers | proj.py:272-277 | the collected rules are exactly the terminal rules of the grammar |
| Ambiguity.GetTerminalRules | proj.py:272-277 | the loop returns the terminal rules in grammar order |
| Ambiguity.GetAmbiguousTerminals | proj.py:280-288 | the nested loops, the inner one starting at the outer index, compute `Ambiguous` |
| Ambiguity.AmbiguousMembers | proj.py:280-288 | a rule is reported as ambiguous exactly when it is in the list and its target span is not empty |
| Ambiguity.FirstMaxUnique | proj.py:312 | there is at most one first index of the maximum |
| Ambiguity.IndexOfMax | proj.py:312 | `index(max(...))` returns the first index at which the surprisals attain their maximum |
| Ambiguity.ReportedMembers | proj.py:319-327 | a pair is reported exactly when some rule of the first list renders like no rule of the second and the pair is its (first output, end of target span) |
| Ambiguity.Report | proj.py:319-327 | the flag loop returns those pairs in the order of the first list |
| Ambiguity.AmbiguityFinder | proj.py:291-329 | no result exactly for an empty sentence; otherwise the report for the first index of maximal surprisal, paired with the word at that index |
| Ambiguity.FindingFacts | proj.py:312-327 | each reported pair comes from a wide terminal rule of the first intersected grammar: its word is the rule's output and its index is the end of the rule's span, within `1..d`; no ambiguous terminal rule of the second grammar renders like that rule |

## Left out

- `surprisal` and its `math.log(..., 2)` (proj.py:197-214) are not part of this model. `Ambiguity.AmbiguityFinder` takes the surprisal of each prefix as an input.
- Weights are Dafny `real`, not IEEE floats: no rounding, overflow or division by a float zero.
- Grammar.SameRendering: the `str(t1) == str(t2)` comparison is modelled as component-wise equality of weight, rendered target and rendered outputs. It agrees with equality of `Grammar.RuleStr` in both directions only when no name is empty or holds `,` or `=`, and when the weight rendering is injective and comma-free on the two weights compared (`Grammar.RuleStrSameRendering`). Python's float formatting of the weight is a parameter, not reproduced.
- Printing (`pretty_print`, `pretty_print2`, `pretty_print3`), `generate_barplot`, the plotting imports and `main` with its example grammars are not part of this model; they are output and static data only.
- Grammar.RuleEq: generalises `Rule.__eq__` to outputs of any length (equal lengths and equal renderings position by position). The source raises an index error when it compares two one-output rules whose target and first output render alike; the model treats them as equal. On binary rules the two agree (`Grammar.RuleEqOnBinary`).
- Intersection.Intersect: requires every grammar rule to have the shape `A -> "w"` or `A -> B C` (`WellFormed`). The source also handles three other shapes: terminal rules with several outputs; mixed rules such as `A -> "w" B`, which `find_terminal_rule` seeds and pruning queues without error; and rules with three or more outputs, of which the closure (proj.py:124) and pruning (proj.py:156-159) read only the first two. It also accepts unary nonterminal rules `A -> B`, which raise an index error at proj.py:124 once `B` name-matches a listed target. None of these is modelled.
- Prune.RemoveUnreachableRules: requires the same rule shapes. Its input in the pipeline is always the output of `intersect`, which has them (`Intersection.DerivedShape`).
- Intersection.Intersect: requires a non-empty grammar (`|pcfg| >= 1`); the source raises an index error at proj.py:92 (`pcfg[0]`) on an empty one.
- Intersection.Goal: requires a non-empty grammar, for the same index error at proj.py:92.
- Ambiguity.AmbiguityFinder: requires a non-empty grammar, because it calls `intersect`, which raises an index error at proj.py:92 on an empty one.
- Intersection.FindTerminalRule: requires every rule to have an output (`HasOutput`); the source raises an index error at proj.py:80 (`rule.output()[0]`) on a rule without outputs. Otherwise it follows the code: it also matches binary rules whose first output has the word's name. The property that every word rule is a terminal rule (`Intersection.WordRuleIsTerminal`) is stated under the assumption that word names and such nonterminal names differ.
- InsideWeights.Inside: the source recursion need not terminate, so the model has a recursion budget `fuel`. `None` covers an exhausted budget, a rule without outputs (an index error in the source) and a zero denominator `1 - x` (a division error in the source). The lemmas hold for every budget under which a value is computed.
- InsideWeights: only the closed form for direct first-child self-recursion is modelled, as the source has it. Indirect cycles are not solved, and the model states nothing about them beyond the budget.
- Ambiguity.AmbiguityFinder: the source evaluates `surprisal` for each prefix, which fails when an intersected grammar is empty. With the surprisals as input, that failure is not modelled.
