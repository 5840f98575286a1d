/**
 * Intersection of a grammar with a word prefix (`find_terminal_rule`,
 * `intersect`): a restricted Bar-Hillel construction.
 *
 * The construction seeds a rule list with the grammar's rules grounded at the
 * span of each word they produce and with every terminal rule grounded at the
 * placeholder span (n, n), where n is the number of words. It then combines,
 * pass after pass, every binary rule `A -> B C` with every pair of listed
 * targets named `B` and `C` whose spans meet, appending `A` over the joined
 * span unless an equal rule is listed, until a pass appends nothing. Finally
 * it prunes the list to the rules reachable from the start category over
 * [0, n).
 *
 * As in `Prune`, the definitions take the rendering `key` as a parameter
 * (instantiated with `Str` by the loops and by `IntersectResult`): the
 * duplicate test compares rendered strings only, and the closure's proofs need
 * nothing else about the rendering.
 */
module Intersection {
  import opened Grammar
  import Prune
  import opened Counting

  /** Every rule has an output, so its first output can be read. */
  predicate HasOutput(pcfg: seq<Rule>) {
    forall k :: 0 <= k < |pcfg| ==> |pcfg[k].rhs| >= 1
  }

  /** The rules of `pcfg` whose first output has the name of `word`, in order. */
  function Matching(pcfg: seq<Rule>, word: Symbol): (res: seq<Rule>)
    requires HasOutput(pcfg)
    ensures |res| <= |pcfg|
    decreases |pcfg|
  {
    if pcfg == [] then []
    else
      var front := pcfg[..|pcfg| - 1];
      var last := pcfg[|pcfg| - 1];
      assert forall r :: r in pcfg <==> r in front || r == last;
      Matching(front, word) + (if SameName(last.rhs[0], word) then [last] else [])
  }

  /** The matching rules are exactly the grammar rules whose first output has the word's name. */
  lemma {:induction false} MatchingMembers(pcfg: seq<Rule>, word: Symbol)
    requires HasOutput(pcfg)
    ensures forall r :: r in Matching(pcfg, word) <==> r in pcfg && SameName(r.rhs[0], word)
    decreases |pcfg|
  {
    if pcfg != [] {
      var front := pcfg[..|pcfg| - 1];
      assert forall r :: r in pcfg <==> r in front || r == pcfg[|pcfg| - 1];
      MatchingMembers(front, word);
    }
  }

  lemma {:induction false} MatchingStep(pcfg: seq<Rule>, j: nat, word: Symbol)
    requires HasOutput(pcfg) && j < |pcfg|
    ensures Matching(pcfg[..j + 1], word) ==
      Matching(pcfg[..j], word) + if SameName(pcfg[j].rhs[0], word) then [pcfg[j]] else []
  {
    assert pcfg[..j + 1][..j] == pcfg[..j];
  }

  /** `find_terminal_rule`: collects the rules whose first output is `word` (by name). */
  method FindTerminalRule(pcfg: seq<Rule>, word: Symbol) returns (rules: seq<Rule>)
    requires HasOutput(pcfg)
    ensures rules == Matching(pcfg, word)
  {
    rules := [];
    var j := 0;
    while j < |pcfg|
      invariant j <= |pcfg|
      invariant rules == Matching(pcfg[..j], word)
    {
      MatchingStep(pcfg, j, word);
      if SameName(pcfg[j].rhs[0], word) {
        rules := rules + [pcfg[j]];
      }
      j := j + 1;
    }
    assert pcfg[..|pcfg|] == pcfg;
  }

  /** Rule `r` with its target renamed to the span [a, b). */
  function Ground(r: Rule, a: int, b: int): Rule {
    Rule(NT(r.lhs.name, a, b), r.v, r.rhs)
  }

  function GroundAll(rs: seq<Rule>, a: int, b: int): seq<Rule> {
    seq(|rs|, k requires 0 <= k < |rs| => Ground(rs[k], a, b))
  }

  /** The rules seeded for the first `i` words, word by word. */
  function WordSeeds(pcfg: seq<Rule>, words: seq<string>, i: nat): seq<Rule>
    requires HasOutput(pcfg) && i <= |words|
    decreases i
  {
    if i == 0 then []
    else WordSeeds(pcfg, words, i - 1) + GroundAll(Matching(pcfg, T(words[i - 1])), i - 1, i)
  }

  /** The placeholder rules seeded for the first `j` grammar rules. */
  function PlaceholderSeeds(pcfg: seq<Rule>, n: int, j: nat): seq<Rule>
    requires j <= |pcfg|
    decreases j
  {
    if j == 0 then []
    else PlaceholderSeeds(pcfg, n, j - 1) + (if IsTerminal(pcfg[j - 1]) then [Ground(pcfg[j - 1], n, n)] else [])
  }

  /** The target list mirrors the rule list: entry `k` is the target of rule `k`. */
  predicate Aligned(nts: seq<Symbol>, rules: seq<Rule>) {
    |nts| == |rules| && forall k :: 0 <= k < |rules| ==> nts[k] == rules[k].lhs
  }

  lemma {:induction false} AlignedAppend(nts: seq<Symbol>, rules: seq<Rule>, r: Rule)
    requires Aligned(nts, rules)
    ensures Aligned(nts + [r.lhs], rules + [r])
  {
  }

  /** Appends each matched rule grounded at the span of word `i`, with its target. */
  method SeedWord(matches: seq<Rule>, i: int, rules0: seq<Rule>, nts0: seq<Symbol>)
    returns (rules: seq<Rule>, nts: seq<Symbol>)
    requires Aligned(nts0, rules0)
    ensures rules == rules0 + GroundAll(matches, i, i + 1) && Aligned(nts, rules)
  {
    rules, nts := rules0, nts0;
    var k := 0;
    while k < |matches|
      invariant k <= |matches|
      invariant rules == rules0 + GroundAll(matches[..k], i, i + 1) && Aligned(nts, rules)
    {
      var rule := matches[k];
      assert GroundAll(matches[..k + 1], i, i + 1) == GroundAll(matches[..k], i, i + 1) + [Ground(rule, i, i + 1)];
      nts := nts + [NT(rule.lhs.name, i, i + 1)];
      rules := rules + [Rule(NT(rule.lhs.name, i, i + 1), rule.v, rule.rhs)];
      k := k + 1;
    }
    assert matches[..k] == matches;
  }

  /** Seeds a rule and its target for each word, as the first loop of `intersect` does. */
  method SeedWords(pcfg: seq<Rule>, words: seq<string>) returns (rules: seq<Rule>, nts: seq<Symbol>)
    requires HasOutput(pcfg)
    ensures rules == WordSeeds(pcfg, words, |words|) && Aligned(nts, rules)
  {
    rules, nts := [], [];
    var i := 0;
    while i < |words|
      invariant i <= |words|
      invariant rules == WordSeeds(pcfg, words, i) && Aligned(nts, rules)
    {
      var matches := FindTerminalRule(pcfg, T(words[i]));
      assert WordSeeds(pcfg, words, i + 1) == WordSeeds(pcfg, words, i) + GroundAll(matches, i, i + 1);
      rules, nts := SeedWord(matches, i, rules, nts);
      i := i + 1;
    }
  }

  /** Seeds every terminal rule at the placeholder span (n, n), as the second loop of `intersect` does. */
  method SeedPlaceholders(pcfg: seq<Rule>, n: int, rules0: seq<Rule>, nts0: seq<Symbol>)
    returns (rules: seq<Rule>, nts: seq<Symbol>)
    requires Aligned(nts0, rules0)
    ensures rules == rules0 + PlaceholderSeeds(pcfg, n, |pcfg|) && Aligned(nts, rules)
  {
    rules, nts := rules0, nts0;
    var j := 0;
    while j < |pcfg|
      invariant j <= |pcfg|
      invariant rules == rules0 + PlaceholderSeeds(pcfg, n, j) && Aligned(nts, rules)
    {
      var rule := pcfg[j];
      if IsTerminal(rule) {
        nts := nts + [NT(rule.lhs.name, n, n)];
        rules := rules + [Rule(NT(rule.lhs.name, n, n), rule.v, rule.rhs)];
      }
      j := j + 1;
    }
  }

  // ---------------------------------------------------------------------
  // The three forms of rule the construction lists.
  // ---------------------------------------------------------------------

  /** A grounded nonterminal inside the sentence: 0 <= s1 <= s2 <= n. */
  predicate InRange(s: Symbol, n: int) {
    s.NT? && 0 <= s.s1 <= s.s2 <= n
  }

  /** A grammar rule grounded at the span of a word that its first output names. */
  predicate WordRule(pcfg: seq<Rule>, words: seq<string>, r: Rule) {
    exists m, i :: 0 <= m < |pcfg| && 0 <= i < |words| && |pcfg[m].rhs| >= 1 &&
      SameName(pcfg[m].rhs[0], T(words[i])) && r == Ground(pcfg[m], i, i + 1)
  }

  /** A terminal grammar rule grounded at the placeholder span (n, n). */
  predicate PlaceholderRule(pcfg: seq<Rule>, n: int, r: Rule) {
    exists m :: 0 <= m < |pcfg| && IsTerminal(pcfg[m]) && r == Ground(pcfg[m], n, n)
  }

  /** Binary rule `q` applies to the pair `x`, `y`: the names match and the spans meet. */
  predicate Combines(q: Rule, x: Symbol, y: Symbol) {
    IsBinary(q) && x.NT? && y.NT? && SameName(q.rhs[0], x) && SameName(q.rhs[1], y) && End(x) == Start(y)
  }

  /** `A_{x.s1, y.s2} -> x y`, with the weight of `q`. */
  function Combine(q: Rule, x: Symbol, y: Symbol): Rule {
    Rule(NT(q.lhs.name, Start(x), End(y)), q.v, [x, y])
  }

  /** A binary grammar rule applied to two listed targets inside the sentence. */
  predicate BinaryRule(pcfg: seq<Rule>, n: int, r: Rule) {
    |r.rhs| == 2 && InRange(r.rhs[0], n) && InRange(r.rhs[1], n) &&
    exists m :: 0 <= m < |pcfg| && Combines(pcfg[m], r.rhs[0], r.rhs[1]) && r == Combine(pcfg[m], r.rhs[0], r.rhs[1])
  }

  predicate Derived(pcfg: seq<Rule>, words: seq<string>, r: Rule) {
    WordRule(pcfg, words, r) || PlaceholderRule(pcfg, |words|, r) || BinaryRule(pcfg, |words|, r)
  }

  /** Every listed rule has one of the three forms. */
  predicate Built(pcfg: seq<Rule>, words: seq<string>, rules: seq<Rule>) {
    forall k :: 0 <= k < |rules| ==> Derived(pcfg, words, rules[k])
  }

  /** Every listed rule is well formed and targets a grounded nonterminal inside the sentence, named after a grammar target. */
  lemma {:induction false} DerivedShape(pcfg: seq<Rule>, words: seq<string>, r: Rule)
    requires WellFormed(pcfg) && Derived(pcfg, words, r)
    ensures WellFormedRule(r) && InRange(r.lhs, |words|)
    ensures exists m :: 0 <= m < |pcfg| && r.lhs.name == pcfg[m].lhs.name && r.v == pcfg[m].v
  {
    if WordRule(pcfg, words, r) {
      var m, i :| 0 <= m < |pcfg| && 0 <= i < |words| && |pcfg[m].rhs| >= 1 &&
        SameName(pcfg[m].rhs[0], T(words[i])) && r == Ground(pcfg[m], i, i + 1);
      assert pcfg[m] in pcfg;
    } else if PlaceholderRule(pcfg, |words|, r) {
      var m :| 0 <= m < |pcfg| && IsTerminal(pcfg[m]) && r == Ground(pcfg[m], |words|, |words|);
      assert pcfg[m] in pcfg;
    }
  }

  /**
   * With no word named like an output nonterminal of the grammar, a word rule
   * is a grammar terminal rule producing that word.
   */
  lemma {:induction false} WordRuleIsTerminal(pcfg: seq<Rule>, words: seq<string>, r: Rule)
    requires WellFormed(pcfg) && WordRule(pcfg, words, r)
    requires forall q, i :: q in pcfg && 0 <= i < |words| && IsBinary(q) ==> q.rhs[0].name != words[i]
    ensures |r.rhs| == 1 && r.rhs[0].T? && IsTerminal(r)
    ensures exists i :: 0 <= i < |words| && r.rhs[0].name == words[i] && r.lhs.s1 == i && r.lhs.s2 == i + 1
  {
    var m, i :| 0 <= m < |pcfg| && 0 <= i < |words| && |pcfg[m].rhs| >= 1 &&
      SameName(pcfg[m].rhs[0], T(words[i])) && r == Ground(pcfg[m], i, i + 1);
    assert pcfg[m] in pcfg;
  }

  lemma {:induction false} WordSeedsDerived(pcfg: seq<Rule>, words: seq<string>, i: nat)
    requires HasOutput(pcfg) && i <= |words|
    ensures forall r :: r in WordSeeds(pcfg, words, i) ==> WordRule(pcfg, words, r)
    decreases i
  {
    if i > 0 {
      WordSeedsDerived(pcfg, words, i - 1);
      var ms := Matching(pcfg, T(words[i - 1]));
      forall r | r in GroundAll(ms, i - 1, i)
        ensures WordRule(pcfg, words, r)
      {
        WordSeedDerived(pcfg, words, i, r);
      }
    }
  }

  /** A rule seeded for word `i - 1` grounds a grammar rule matching that word. */
  lemma {:induction false} WordSeedDerived(pcfg: seq<Rule>, words: seq<string>, i: nat, r: Rule)
    requires HasOutput(pcfg) && 0 < i <= |words|
    requires r in GroundAll(Matching(pcfg, T(words[i - 1])), i - 1, i)
    ensures WordRule(pcfg, words, r)
  {
    var ms := Matching(pcfg, T(words[i - 1]));
    MatchingMembers(pcfg, T(words[i - 1]));
    var k :| 0 <= k < |ms| && r == Ground(ms[k], i - 1, i);
    assert ms[k] in ms;
    var m :| 0 <= m < |pcfg| && pcfg[m] == ms[k];
  }

  lemma {:induction false} PlaceholderSeedsDerived(pcfg: seq<Rule>, n: int, j: nat)
    requires j <= |pcfg|
    ensures forall r :: r in PlaceholderSeeds(pcfg, n, j) ==> PlaceholderRule(pcfg, n, r)
    decreases j
  {
    if j > 0 {
      PlaceholderSeedsDerived(pcfg, n, j - 1);
    }
  }

  // ---------------------------------------------------------------------
  // The closure loop.
  // ---------------------------------------------------------------------

  /** The finitely many nonterminals a listed target can be: a grammar target name over a span in [0, n]. */
  function NTSpace(pcfg: seq<Rule>, n: nat): set<Symbol> {
    set nm, a, b | nm in TargetNames(pcfg) && 0 <= a <= n && 0 <= b <= n :: NT(nm, a, b)
  }

  /** The names of the grammar's targets, in rule order. */
  function TargetNames(pcfg: seq<Rule>): (names: seq<string>)
    ensures |names| == |pcfg| && forall i :: 0 <= i < |pcfg| ==> names[i] == pcfg[i].lhs.name
  {
    seq(|pcfg|, i requires 0 <= i < |pcfg| => pcfg[i].lhs.name)
  }

  /** Membership in the space, stated pointwise. */
  predicate InNTSpace(pcfg: seq<Rule>, n: nat, x: Symbol) {
    x.NT? && 0 <= x.s1 <= n && 0 <= x.s2 <= n && x.name in TargetNames(pcfg)
  }

  lemma {:induction false} NTSpaceMember(pcfg: seq<Rule>, n: nat, x: Symbol)
    requires InNTSpace(pcfg, n, x)
    ensures x in NTSpace(pcfg, n)
  {
  }

  /** What `Rule.__eq__` compares on a binary rule: rendered target, first and second output. */
  function RuleKey(key: Symbol -> string, r: Rule): (string, string, string)
    requires |r.rhs| == 2
  {
    (key(r.lhs), key(r.rhs[0]), key(r.rhs[1]))
  }

  /** The keys of every rule the closure could ever append. */
  function CandKeys(key: Symbol -> string, pcfg: seq<Rule>, n: nat): set<(string, string, string)> {
    set q, x, y | q in pcfg && x in NTSpace(pcfg, n) && y in NTSpace(pcfg, n) :: RuleKey(key, Combine(q, x, y))
  }

  /** `cand` holds the key of every combination of two targets of the space by a grammar rule. */
  ghost predicate Bounds(key: Symbol -> string, pcfg: seq<Rule>, n: nat, cand: set<(string, string, string)>) {
    forall j, x, y {:trigger RuleKey(key, Combine(pcfg[j], x, y))} ::
      0 <= j < |pcfg| && InNTSpace(pcfg, n, x) && InNTSpace(pcfg, n, y) ==>
        RuleKey(key, Combine(pcfg[j], x, y)) in cand
  }

  lemma {:induction false} CandKeysBound(key: Symbol -> string, pcfg: seq<Rule>, n: nat)
    ensures Bounds(key, pcfg, n, CandKeys(key, pcfg, n))
  {
    forall j, x, y | 0 <= j < |pcfg| && InNTSpace(pcfg, n, x) && InNTSpace(pcfg, n, y)
      ensures RuleKey(key, Combine(pcfg[j], x, y)) in CandKeys(key, pcfg, n)
    {
      NTSpaceMember(pcfg, n, x);
      NTSpaceMember(pcfg, n, y);
      assert pcfg[j] in pcfg;
    }
  }

  /** The keys of the binary rules of a list. */
  function KeysOf(key: Symbol -> string, rules: seq<Rule>): set<(string, string, string)>
    decreases |rules|
  {
    if rules == [] then {}
    else
      var r := rules[|rules| - 1];
      KeysOf(key, rules[..|rules| - 1]) + if |r.rhs| == 2 then {RuleKey(key, r)} else {}
  }

  lemma {:induction false} KeysOfMember(key: Symbol -> string, rules: seq<Rule>, k: (string, string, string))
    ensures k in KeysOf(key, rules) <==> exists i :: 0 <= i < |rules| && |rules[i].rhs| == 2 && RuleKey(key, rules[i]) == k
    decreases |rules|
  {
    if rules != [] {
      var front := rules[..|rules| - 1];
      KeysOfMember(key, front, k);
      if k in KeysOf(key, front) {
        var i :| 0 <= i < |front| && |front[i].rhs| == 2 && RuleKey(key, front[i]) == k;
        assert rules[i] == front[i];
      }
      if exists i :: 0 <= i < |rules| && |rules[i].rhs| == 2 && RuleKey(key, rules[i]) == k {
        var i :| 0 <= i < |rules| && |rules[i].rhs| == 2 && RuleKey(key, rules[i]) == k;
        if i < |front| {
          assert front[i] == rules[i];
        }
      }
    }
  }

  /** How many keys of `cand` are still missing: the closure's termination measure. */
  function Pending(key: Symbol -> string, cand: set<(string, string, string)>, rules: seq<Rule>): nat {
    |cand - KeysOf(key, rules)|
  }

  /** A binary rule that is not present has a key no listed binary rule has. */
  lemma {:induction false} KeyAbsent(key: Symbol -> string, rules: seq<Rule>, r: Rule)
    requires |r.rhs| == 2 && !Present(key, r, rules)
    ensures RuleKey(key, r) !in KeysOf(key, rules)
  {
    KeysOfMember(key, rules, RuleKey(key, r));
    if RuleKey(key, r) in KeysOf(key, rules) {
      var i :| 0 <= i < |rules| && |rules[i].rhs| == 2 && RuleKey(key, rules[i]) == RuleKey(key, r);
      RuleEqOnBinary(key, rules[i], r);
      assert false;
    }
  }

  /** Appending a combination that is not present leaves fewer candidate keys missing. */
  lemma {:induction false} PendingShrinks(key: Symbol -> string, pcfg: seq<Rule>, n: nat, cand: set<(string, string, string)>,
                       rules: seq<Rule>, j: nat, x: Symbol, y: Symbol)
    requires Bounds(key, pcfg, n, cand) && j < |pcfg| && InNTSpace(pcfg, n, x) && InNTSpace(pcfg, n, y)
    requires !Present(key, Combine(pcfg[j], x, y), rules)
    ensures Pending(key, cand, rules + [Combine(pcfg[j], x, y)]) < Pending(key, cand, rules)
  {
    var r := Combine(pcfg[j], x, y);
    var k := RuleKey(key, r);
    assert k in cand;
    KeyAbsent(key, rules, r);
    assert (rules + [r])[..|rules|] == rules;
    assert KeysOf(key, rules + [r]) == KeysOf(key, rules) + {k};
    var missing := cand - KeysOf(key, rules);
    assert cand - KeysOf(key, rules + [r]) == missing - {k};
  }

  /** A list misses no more candidate keys than a list whose rules it all holds. */
  lemma {:induction false} PendingMono(key: Symbol -> string, cand: set<(string, string, string)>, rules: seq<Rule>, more: seq<Rule>)
    requires forall r :: r in rules ==> r in more
    ensures Pending(key, cand, more) <= Pending(key, cand, rules)
  {
    forall k | k in KeysOf(key, rules)
      ensures k in KeysOf(key, more)
    {
      KeysOfMember(key, rules, k);
      var i :| 0 <= i < |rules| && |rules[i].rhs| == 2 && RuleKey(key, rules[i]) == k;
      assert rules[i] in rules;
      var m :| 0 <= m < |more| && more[m] == rules[i];
      KeysOfMember(key, more, k);
    }
    SubsetCard(cand - KeysOf(key, more), cand - KeysOf(key, rules));
  }

  /** A list that starts with `rules` and then `c` holds every rule of `rules + [c]`. */
  lemma {:induction false} PrefixMembers(rules: seq<Rule>, more: seq<Rule>, c: Rule)
    requires |rules| < |more| && more[..|rules|] == rules && more[|rules|] == c
    ensures forall r :: r in rules + [c] ==> r in more
  {
    forall r | r in rules + [c]
      ensures r in more
    {
      var k :| 0 <= k < |rules + [c]| && (rules + [c])[k] == r;
      if k < |rules| {
        assert more[..|rules|][k] == more[k];
      }
    }
  }

  /** Every listed rule targets a nonterminal of the space. */
  predicate InSpace(pcfg: seq<Rule>, n: nat, rules: seq<Rule>) {
    forall k :: 0 <= k < |rules| ==> InNTSpace(pcfg, n, rules[k].lhs)
  }

  /** Combining the targets of two listed rules by a grammar rule gives a target of the space. */
  lemma {:induction false} CombineInSpace(pcfg: seq<Rule>, n: nat, j: nat, rules: seq<Rule>, a: nat, b: nat)
    requires j < |pcfg| && a < |rules| && b < |rules| && InSpace(pcfg, n, rules)
    ensures InSpace(pcfg, n, rules + [Combine(pcfg[j], rules[a].lhs, rules[b].lhs)])
  {
    var x, y := rules[a].lhs, rules[b].lhs;
    assert InNTSpace(pcfg, n, x) && InNTSpace(pcfg, n, y);
    assert TargetNames(pcfg)[j] == pcfg[j].lhs.name;
    var c := Combine(pcfg[j], x, y);
    assert InNTSpace(pcfg, n, c.lhs);
    var more := rules + [c];
    forall k | 0 <= k < |more|
      ensures InNTSpace(pcfg, n, more[k].lhs)
    {
      if k < |rules| {
        assert more[k] == rules[k];
      }
    }
  }


  /** Whether grammar rule `q` combines `x` with `y` into a rule not yet listed. */
  predicate Adds(key: Symbol -> string, q: Rule, x: Symbol, y: Symbol, rules: seq<Rule>) {
    Combines(q, x, y) && !Present(key, Combine(q, x, y), rules)
  }

  /**
   * Rule `i` of `rs` combines the targets of two earlier rules by a grammar
   * rule, and equals none of the rules before it.
   */
  predicate Appended(key: Symbol -> string, pcfg: seq<Rule>, rs: seq<Rule>, i: nat)
    requires i < |rs|
  {
    (exists j, a, b :: 0 <= j < |pcfg| && 0 <= a < i && 0 <= b < i &&
      Combines(pcfg[j], rs[a].lhs, rs[b].lhs) && rs[i] == Combine(pcfg[j], rs[a].lhs, rs[b].lhs)) &&
    !Present(key, rs[i], rs[..i])
  }

  /** `more` is `rules` followed by appended combinations only. */
  predicate Extends(key: Symbol -> string, pcfg: seq<Rule>, rules: seq<Rule>, more: seq<Rule>) {
    |rules| <= |more| && more[..|rules|] == rules &&
    forall i :: |rules| <= i < |more| ==> Appended(key, pcfg, more, i)
  }

  lemma {:induction false} ExtendsRefl(key: Symbol -> string, pcfg: seq<Rule>, rules: seq<Rule>)
    ensures Extends(key, pcfg, rules, rules)
  {
    assert rules[..|rules|] == rules;
  }

  lemma {:induction false} AppendedExtends(key: Symbol -> string, pcfg: seq<Rule>, rs: seq<Rule>, more: seq<Rule>, i: nat)
    requires i < |rs| <= |more| && more[..|rs|] == rs && Appended(key, pcfg, rs, i)
    ensures Appended(key, pcfg, more, i)
  {
    var j, a, b :| 0 <= j < |pcfg| && 0 <= a < i && 0 <= b < i &&
      Combines(pcfg[j], rs[a].lhs, rs[b].lhs) && rs[i] == Combine(pcfg[j], rs[a].lhs, rs[b].lhs);
    assert more[..i] == more[..|rs|][..i];
    assert more[a] == more[..|rs|][a] && more[b] == more[..|rs|][b] && more[i] == more[..|rs|][i];
  }

  lemma {:induction false} ExtendsTrans(key: Symbol -> string, pcfg: seq<Rule>, r1: seq<Rule>, r2: seq<Rule>, r3: seq<Rule>)
    requires Extends(key, pcfg, r1, r2) && Extends(key, pcfg, r2, r3)
    ensures Extends(key, pcfg, r1, r3)
  {
    PrefixOfPrefix(r1, r2, r3);
    forall i | |r1| <= i < |r2|
      ensures Appended(key, pcfg, r3, i)
    {
      AppendedExtends(key, pcfg, r2, r3, i);
    }
  }

  /** Appending a combination that adds a rule extends the list. */
  lemma {:induction false} AppendOne(key: Symbol -> string, pcfg: seq<Rule>, rules: seq<Rule>, j: nat, a: nat, b: nat)
    requires j < |pcfg| && a < |rules| && b < |rules|
    requires Adds(key, pcfg[j], rules[a].lhs, rules[b].lhs, rules)
    ensures Extends(key, pcfg, rules, rules + [Combine(pcfg[j], rules[a].lhs, rules[b].lhs)])
  {
    var more := rules + [Combine(pcfg[j], rules[a].lhs, rules[b].lhs)];
    assert more[..|rules|] == rules;
    assert more[a] == rules[a] && more[b] == rules[b];
    assert Appended(key, pcfg, more, |rules|);
  }

  /** Every rule of an extension of a list in the space targets the space. */
  lemma {:induction false} SpaceAt(key: Symbol -> string, pcfg: seq<Rule>, n: nat, rules: seq<Rule>, more: seq<Rule>, i: nat)
    requires InSpace(pcfg, n, rules) && Extends(key, pcfg, rules, more) && i < |more|
    ensures InNTSpace(pcfg, n, more[i].lhs)
    decreases i
  {
    if i < |rules| {
      assert more[i] == more[..|rules|][i];
    } else {
      assert Appended(key, pcfg, more, i);
      var j, a, b :| 0 <= j < |pcfg| && 0 <= a < i && 0 <= b < i &&
        Combines(pcfg[j], more[a].lhs, more[b].lhs) && more[i] == Combine(pcfg[j], more[a].lhs, more[b].lhs);
      SpaceAt(key, pcfg, n, rules, more, a);
      SpaceAt(key, pcfg, n, rules, more, b);
      assert TargetNames(pcfg)[j] == pcfg[j].lhs.name;
    }
  }

  lemma {:induction false} ExtendsInSpace(key: Symbol -> string, pcfg: seq<Rule>, n: nat, rules: seq<Rule>, more: seq<Rule>)
    requires InSpace(pcfg, n, rules) && Extends(key, pcfg, rules, more)
    ensures InSpace(pcfg, n, more)
  {
    forall i | 0 <= i < |more|
      ensures InNTSpace(pcfg, n, more[i].lhs)
    {
      SpaceAt(key, pcfg, n, rules, more, i);
    }
  }

  /** An extension either is the list itself or leaves fewer candidate keys missing. */
  lemma {:induction false} ExtendsPending(key: Symbol -> string, pcfg: seq<Rule>, n: nat, cand: set<(string, string, string)>,
                       rules: seq<Rule>, more: seq<Rule>)
    requires Bounds(key, pcfg, n, cand) && InSpace(pcfg, n, rules) && Extends(key, pcfg, rules, more)
    ensures if |more| == |rules| then more == rules else Pending(key, cand, more) < Pending(key, cand, rules)
  {
    var i := |rules|;
    if |more| == i {
      assert more == more[..i];
    } else {
      assert Appended(key, pcfg, more, i);
      var j, a, b :| 0 <= j < |pcfg| && 0 <= a < i && 0 <= b < i &&
        Combines(pcfg[j], more[a].lhs, more[b].lhs) && more[i] == Combine(pcfg[j], more[a].lhs, more[b].lhs);
      assert more[..i] == rules;
      assert more[a] == rules[a] && more[b] == rules[b];
      PendingShrinks(key, pcfg, n, cand, rules, j, rules[a].lhs, rules[b].lhs);
      PrefixMembers(rules, more, more[i]);
      PendingMono(key, cand, rules + [more[i]], more);
    }
  }

  /** The facts every level of the closure relies on, for one extension. */
  lemma {:induction false} ExtendsStep(key: Symbol -> string, pcfg: seq<Rule>, n: nat, cand: set<(string, string, string)>,
                    rules: seq<Rule>, more: seq<Rule>)
    requires Bounds(key, pcfg, n, cand) && InSpace(pcfg, n, rules) && Extends(key, pcfg, rules, more)
    ensures InSpace(pcfg, n, more)
    ensures if |more| == |rules| then more == rules else Pending(key, cand, more) < Pending(key, cand, rules)
  {
    ExtendsInSpace(key, pcfg, n, rules, more);
    ExtendsPending(key, pcfg, n, cand, rules, more);
  }

  // The closure, loop by loop. The target list `NonTerminals` of the source
  // always holds the targets of the rule list in order, so these functions
  // read target `k` as `rules[k].lhs`. The set `cand` only bounds the
  // recursion: it holds every key the closure could append (`Bounds`).

  /** Where the innermost loop may stand: a grammar rule, a first target, a position. */
  ghost predicate SweepArgs(key: Symbol -> string, pcfg: seq<Rule>, n: nat, cand: set<(string, string, string)>,
                      j: nat, a: nat, k: nat, rules: seq<Rule>) {
    Bounds(key, pcfg, n, cand) && j < |pcfg| && a < |rules| && k <= |rules| && InSpace(pcfg, n, rules)
  }

  /**
   * The innermost loop, from position `k` on: pairs target `a` with each
   * listed target under grammar rule `j`, appending each combination not yet
   * listed, targets appended meanwhile included.
   */
  function Sweep(key: Symbol -> string, pcfg: seq<Rule>, n: nat, cand: set<(string, string, string)>,
                 j: nat, a: nat, k: nat, rules: seq<Rule>): seq<Rule>
    requires SweepArgs(key, pcfg, n, cand, j, a, k, rules)
    decreases Pending(key, cand, rules), |rules| - k
  {
    if k == |rules| then rules
    else
      var x, y := rules[a].lhs, rules[k].lhs;
      if Adds(key, pcfg[j], x, y, rules) then
        PendingShrinks(key, pcfg, n, cand, rules, j, x, y);
        CombineInSpace(pcfg, n, j, rules, a, k);
        Sweep(key, pcfg, n, cand, j, a, k + 1, rules + [Combine(pcfg[j], x, y)])
      else
        Sweep(key, pcfg, n, cand, j, a, k + 1, rules)
  }

  /** One step of the innermost loop that appends a combination. */
  lemma {:induction false} SweepAdds(key: Symbol -> string, pcfg: seq<Rule>, n: nat, cand: set<(string, string, string)>,
                  j: nat, a: nat, k: nat, rules: seq<Rule>)
    requires SweepArgs(key, pcfg, n, cand, j, a, k, rules) && k < |rules|
    requires Adds(key, pcfg[j], rules[a].lhs, rules[k].lhs, rules)
    ensures SweepArgs(key, pcfg, n, cand, j, a, k + 1, rules + [Combine(pcfg[j], rules[a].lhs, rules[k].lhs)])
    ensures Pending(key, cand, rules + [Combine(pcfg[j], rules[a].lhs, rules[k].lhs)]) < Pending(key, cand, rules)
    ensures Sweep(key, pcfg, n, cand, j, a, k, rules) ==
      Sweep(key, pcfg, n, cand, j, a, k + 1, rules + [Combine(pcfg[j], rules[a].lhs, rules[k].lhs)])
  {
    CombineInSpace(pcfg, n, j, rules, a, k);
    PendingShrinks(key, pcfg, n, cand, rules, j, rules[a].lhs, rules[k].lhs);
  }

  /**
   * One step of the innermost loop, in the terms the loop tests: the guard of
   * the source's `if` is `Combines`, the rule it builds is `Combine`, and the
   * step either appends it (shrinking the pending keys) or appends nothing.
   */
  lemma {:induction false} SweepStep(key: Symbol -> string, pcfg: seq<Rule>, n: nat, cand: set<(string, string, string)>,
                                     j: nat, a: nat, k: nat, rules: seq<Rule>)
    requires SweepArgs(key, pcfg, n, cand, j, a, k, rules) && k < |rules| && IsBinary(pcfg[j])
    ensures var q, x, y := pcfg[j], rules[a].lhs, rules[k].lhs;
      IsBinary(q) && x.NT? && y.NT? &&
      (Combines(q, x, y) <==> SameName(q.rhs[0], x) && SameName(q.rhs[1], y) && x.s2 == y.s1) &&
      Combine(q, x, y) == Rule(NT(q.lhs.name, x.s1, y.s2), q.v, [x, y])
    ensures var c := Combine(pcfg[j], rules[a].lhs, rules[k].lhs);
      if Adds(key, pcfg[j], rules[a].lhs, rules[k].lhs, rules) then
        SweepArgs(key, pcfg, n, cand, j, a, k + 1, rules + [c]) &&
        Pending(key, cand, rules + [c]) < Pending(key, cand, rules) &&
        Sweep(key, pcfg, n, cand, j, a, k, rules) == Sweep(key, pcfg, n, cand, j, a, k + 1, rules + [c])
      else
        Sweep(key, pcfg, n, cand, j, a, k, rules) == Sweep(key, pcfg, n, cand, j, a, k + 1, rules)
  {
    assert InNTSpace(pcfg, n, rules[a].lhs) && InNTSpace(pcfg, n, rules[k].lhs);
    if Adds(key, pcfg[j], rules[a].lhs, rules[k].lhs, rules) {
      SweepAdds(key, pcfg, n, cand, j, a, k, rules);
    } else {
      SweepSkips(key, pcfg, n, cand, j, a, k, rules);
    }
  }

  /** One step of the innermost loop that appends nothing. */
  lemma {:induction false} SweepSkips(key: Symbol -> string, pcfg: seq<Rule>, n: nat, cand: set<(string, string, string)>,
                   j: nat, a: nat, k: nat, rules: seq<Rule>)
    requires SweepArgs(key, pcfg, n, cand, j, a, k, rules) && k < |rules|
    requires !Adds(key, pcfg[j], rules[a].lhs, rules[k].lhs, rules)
    ensures Sweep(key, pcfg, n, cand, j, a, k, rules) == Sweep(key, pcfg, n, cand, j, a, k + 1, rules)
  {
  }

  lemma {:induction false} SweepExtends(key: Symbol -> string, pcfg: seq<Rule>, n: nat, cand: set<(string, string, string)>,
                                        j: nat, a: nat, k: nat, rules: seq<Rule>)
    requires SweepArgs(key, pcfg, n, cand, j, a, k, rules)
    ensures Extends(key, pcfg, rules, Sweep(key, pcfg, n, cand, j, a, k, rules))
    decreases Pending(key, cand, rules), |rules| - k
  {
    if k == |rules| {
      ExtendsRefl(key, pcfg, rules);
    } else {
      var x, y := rules[a].lhs, rules[k].lhs;
      if Adds(key, pcfg[j], x, y, rules) {
        PendingShrinks(key, pcfg, n, cand, rules, j, x, y);
        CombineInSpace(pcfg, n, j, rules, a, k);
        var more := rules + [Combine(pcfg[j], x, y)];
        AppendOne(key, pcfg, rules, j, a, k);
        SweepExtends(key, pcfg, n, cand, j, a, k + 1, more);
        ExtendsTrans(key, pcfg, rules, more, Sweep(key, pcfg, n, cand, j, a, k + 1, more));
      } else {
        SweepExtends(key, pcfg, n, cand, j, a, k + 1, rules);
      }
    }
  }

  /** A sweep that appends nothing found nothing to add from position `k` on. */
  lemma {:induction false} SweepNone(key: Symbol -> string, pcfg: seq<Rule>, n: nat, cand: set<(string, string, string)>,
                                     j: nat, a: nat, k: nat, rules: seq<Rule>)
    requires SweepArgs(key, pcfg, n, cand, j, a, k, rules)
    requires |Sweep(key, pcfg, n, cand, j, a, k, rules)| == |rules|
    ensures forall b :: k <= b < |rules| ==> !Adds(key, pcfg[j], rules[a].lhs, rules[b].lhs, rules)
    decreases |rules| - k
  {
    if k < |rules| {
      var x, y := rules[a].lhs, rules[k].lhs;
      if Adds(key, pcfg[j], x, y, rules) {
        PendingShrinks(key, pcfg, n, cand, rules, j, x, y);
        CombineInSpace(pcfg, n, j, rules, a, k);
        SweepExtends(key, pcfg, n, cand, j, a, k + 1, rules + [Combine(pcfg[j], x, y)]);
        assert false;
      } else {
        SweepNone(key, pcfg, n, cand, j, a, k + 1, rules);
      }
    }
  }

  /** The middle loop, from first target `a` on: a sweep for each listed target, targets appended meanwhile included. */
  function SweepAll(key: Symbol -> string, pcfg: seq<Rule>, n: nat, cand: set<(string, string, string)>,
                    j: nat, a: nat, rules: seq<Rule>): seq<Rule>
    requires Bounds(key, pcfg, n, cand) && j < |pcfg| && a <= |rules| && InSpace(pcfg, n, rules)
    decreases Pending(key, cand, rules), |rules| - a
  {
    if a == |rules| then rules
    else
      var more := Sweep(key, pcfg, n, cand, j, a, 0, rules);
      SweepExtends(key, pcfg, n, cand, j, a, 0, rules);
      ExtendsStep(key, pcfg, n, cand, rules, more);
      SweepAll(key, pcfg, n, cand, j, a + 1, more)
  }

  /** One step of the middle loop: sweeping target `a` extends the list or leaves it as it was. */
  lemma {:induction false} SweepAllStep(key: Symbol -> string, pcfg: seq<Rule>, n: nat, cand: set<(string, string, string)>,
                                        j: nat, a: nat, rules: seq<Rule>)
    requires Bounds(key, pcfg, n, cand) && j < |pcfg| && a < |rules| && InSpace(pcfg, n, rules)
    ensures SweepArgs(key, pcfg, n, cand, j, a, 0, rules)
    ensures var more := Sweep(key, pcfg, n, cand, j, a, 0, rules);
      InSpace(pcfg, n, more) && |rules| <= |more| &&
      (if |more| == |rules| then more == rules else Pending(key, cand, more) < Pending(key, cand, rules)) &&
      SweepAll(key, pcfg, n, cand, j, a, rules) == SweepAll(key, pcfg, n, cand, j, a + 1, more)
  {
    var more := Sweep(key, pcfg, n, cand, j, a, 0, rules);
    SweepExtends(key, pcfg, n, cand, j, a, 0, rules);
    ExtendsStep(key, pcfg, n, cand, rules, more);
  }

  lemma {:induction false} SweepAllExtends(key: Symbol -> string, pcfg: seq<Rule>, n: nat, cand: set<(string, string, string)>,
                                           j: nat, a: nat, rules: seq<Rule>)
    requires Bounds(key, pcfg, n, cand) && j < |pcfg| && a <= |rules| && InSpace(pcfg, n, rules)
    ensures Extends(key, pcfg, rules, SweepAll(key, pcfg, n, cand, j, a, rules))
    decreases Pending(key, cand, rules), |rules| - a
  {
    if a == |rules| {
      ExtendsRefl(key, pcfg, rules);
    } else {
      var more := Sweep(key, pcfg, n, cand, j, a, 0, rules);
      SweepExtends(key, pcfg, n, cand, j, a, 0, rules);
      ExtendsStep(key, pcfg, n, cand, rules, more);
      SweepAllExtends(key, pcfg, n, cand, j, a + 1, more);
      ExtendsTrans(key, pcfg, rules, more, SweepAll(key, pcfg, n, cand, j, a + 1, more));
    }
  }

  /** A middle loop that appends nothing made its first sweep append nothing. */
  lemma {:induction false} SweepAllUnchanged(key: Symbol -> string, pcfg: seq<Rule>, n: nat, cand: set<(string, string, string)>,
                          j: nat, a: nat, rules: seq<Rule>)
    requires Bounds(key, pcfg, n, cand) && j < |pcfg| && a < |rules| && InSpace(pcfg, n, rules)
    requires |SweepAll(key, pcfg, n, cand, j, a, rules)| == |rules|
    ensures Sweep(key, pcfg, n, cand, j, a, 0, rules) == rules
  {
    var more := Sweep(key, pcfg, n, cand, j, a, 0, rules);
    SweepExtends(key, pcfg, n, cand, j, a, 0, rules);
    ExtendsStep(key, pcfg, n, cand, rules, more);
    SweepAllExtends(key, pcfg, n, cand, j, a + 1, more);
  }

  /** A middle loop that appends nothing found nothing to add for first targets from `a` on. */
  lemma {:induction false} SweepAllNone(key: Symbol -> string, pcfg: seq<Rule>, n: nat, cand: set<(string, string, string)>,
                                        j: nat, a: nat, rules: seq<Rule>)
    requires Bounds(key, pcfg, n, cand) && j < |pcfg| && a <= |rules| && InSpace(pcfg, n, rules)
    requires |SweepAll(key, pcfg, n, cand, j, a, rules)| == |rules|
    ensures forall a', b :: a <= a' < |rules| && 0 <= b < |rules| ==> !Adds(key, pcfg[j], rules[a'].lhs, rules[b].lhs, rules)
    decreases |rules| - a
  {
    if a < |rules| {
      SweepAllUnchanged(key, pcfg, n, cand, j, a, rules);
      SweepNone(key, pcfg, n, cand, j, a, 0, rules);
      SweepAllNone(key, pcfg, n, cand, j, a + 1, rules);
    }
  }

  /** One pass of the outer `for` loop, from grammar rule `j` on; terminal rules are skipped. */
  function PassFrom(key: Symbol -> string, pcfg: seq<Rule>, n: nat, cand: set<(string, string, string)>,
                    j: nat, rules: seq<Rule>): seq<Rule>
    requires Bounds(key, pcfg, n, cand) && j <= |pcfg| && InSpace(pcfg, n, rules)
    decreases |pcfg| - j
  {
    if j == |pcfg| then rules
    else if IsTerminal(pcfg[j]) then PassFrom(key, pcfg, n, cand, j + 1, rules)
    else
      var more := SweepAll(key, pcfg, n, cand, j, 0, rules);
      SweepAllExtends(key, pcfg, n, cand, j, 0, rules);
      ExtendsInSpace(key, pcfg, n, rules, more);
      PassFrom(key, pcfg, n, cand, j + 1, more)
  }

  lemma {:induction false} PassExtends(key: Symbol -> string, pcfg: seq<Rule>, n: nat, cand: set<(string, string, string)>,
                                       j: nat, rules: seq<Rule>)
    requires Bounds(key, pcfg, n, cand) && j <= |pcfg| && InSpace(pcfg, n, rules)
    ensures Extends(key, pcfg, rules, PassFrom(key, pcfg, n, cand, j, rules))
    decreases |pcfg| - j
  {
    if j == |pcfg| {
      ExtendsRefl(key, pcfg, rules);
    } else if IsTerminal(pcfg[j]) {
      PassExtends(key, pcfg, n, cand, j + 1, rules);
    } else {
      var more := SweepAll(key, pcfg, n, cand, j, 0, rules);
      SweepAllExtends(key, pcfg, n, cand, j, 0, rules);
      ExtendsInSpace(key, pcfg, n, rules, more);
      PassExtends(key, pcfg, n, cand, j + 1, more);
      ExtendsTrans(key, pcfg, rules, more, PassFrom(key, pcfg, n, cand, j + 1, more));
    }
  }

  /** A pass that appends nothing found nothing to add for any binary grammar rule from `j` on. */
  lemma {:induction false} PassNone(key: Symbol -> string, pcfg: seq<Rule>, n: nat, cand: set<(string, string, string)>,
                                    j: nat, rules: seq<Rule>)
    requires Bounds(key, pcfg, n, cand) && j <= |pcfg| && InSpace(pcfg, n, rules)
    requires |PassFrom(key, pcfg, n, cand, j, rules)| == |rules|
    ensures forall j', a, b :: j <= j' < |pcfg| && !IsTerminal(pcfg[j']) && 0 <= a < |rules| && 0 <= b < |rules| ==>
      !Adds(key, pcfg[j'], rules[a].lhs, rules[b].lhs, rules)
    decreases |pcfg| - j
  {
    if j < |pcfg| {
      if IsTerminal(pcfg[j]) {
        PassNone(key, pcfg, n, cand, j + 1, rules);
      } else {
        var more := SweepAll(key, pcfg, n, cand, j, 0, rules);
        SweepAllExtends(key, pcfg, n, cand, j, 0, rules);
        ExtendsStep(key, pcfg, n, cand, rules, more);
        if |more| == |rules| {
          SweepAllNone(key, pcfg, n, cand, j, 0, rules);
          PassNone(key, pcfg, n, cand, j + 1, rules);
        } else {
          PassExtends(key, pcfg, n, cand, j + 1, more);
          assert false;
        }
      }
    }
  }

  /** The `while clear` loop: passes until one appends nothing. */
  function Saturate(key: Symbol -> string, pcfg: seq<Rule>, n: nat, cand: set<(string, string, string)>,
                    rules: seq<Rule>): seq<Rule>
    requires Bounds(key, pcfg, n, cand) && InSpace(pcfg, n, rules)
    decreases Pending(key, cand, rules)
  {
    var more := PassFrom(key, pcfg, n, cand, 0, rules);
    PassExtends(key, pcfg, n, cand, 0, rules);
    ExtendsStep(key, pcfg, n, cand, rules, more);
    if |more| == |rules| then rules else Saturate(key, pcfg, n, cand, more)
  }

  lemma {:induction false} SaturateExtends(key: Symbol -> string, pcfg: seq<Rule>, n: nat, cand: set<(string, string, string)>,
                                           rules: seq<Rule>)
    requires Bounds(key, pcfg, n, cand) && InSpace(pcfg, n, rules)
    ensures Extends(key, pcfg, rules, Saturate(key, pcfg, n, cand, rules))
    decreases Pending(key, cand, rules)
  {
    var more := PassFrom(key, pcfg, n, cand, 0, rules);
    PassExtends(key, pcfg, n, cand, 0, rules);
    ExtendsStep(key, pcfg, n, cand, rules, more);
    if |more| == |rules| {
      ExtendsRefl(key, pcfg, rules);
    } else {
      SaturateExtends(key, pcfg, n, cand, more);
      ExtendsTrans(key, pcfg, rules, more, Saturate(key, pcfg, n, cand, more));
    }
  }

  /**
   * Closed under the binary grammar rules: every combination, by a binary
   * grammar rule, of two listed targets whose names match its outputs and
   * whose spans meet is listed (up to `Rule.__eq__`).
   */
  predicate Closed(key: Symbol -> string, pcfg: seq<Rule>, rules: seq<Rule>) {
    forall j, a, b ::
      0 <= j < |pcfg| && !IsTerminal(pcfg[j]) && 0 <= a < |rules| && 0 <= b < |rules| &&
      Combines(pcfg[j], rules[a].lhs, rules[b].lhs) ==>
        Present(key, Combine(pcfg[j], rules[a].lhs, rules[b].lhs), rules)
  }

  /** The loop exits only after a pass appends nothing, so its result is closed. */
  lemma {:induction false} SaturateClosed(key: Symbol -> string, pcfg: seq<Rule>, n: nat, cand: set<(string, string, string)>,
                                          rules: seq<Rule>)
    requires Bounds(key, pcfg, n, cand) && InSpace(pcfg, n, rules)
    ensures Closed(key, pcfg, Saturate(key, pcfg, n, cand, rules))
    decreases Pending(key, cand, rules)
  {
    var more := PassFrom(key, pcfg, n, cand, 0, rules);
    PassExtends(key, pcfg, n, cand, 0, rules);
    ExtendsStep(key, pcfg, n, cand, rules, more);
    if |more| == |rules| {
      PassNone(key, pcfg, n, cand, 0, rules);
    } else {
      SaturateClosed(key, pcfg, n, cand, more);
    }
  }

  // ---------------------------------------------------------------------
  // What the closure lists, and the whole construction.
  // ---------------------------------------------------------------------

  lemma {:induction false} WellFormedHasOutput(pcfg: seq<Rule>)
    requires WellFormed(pcfg)
    ensures HasOutput(pcfg)
  {
    forall k | 0 <= k < |pcfg|
      ensures |pcfg[k].rhs| >= 1
    {
      assert pcfg[k] in pcfg;
    }
  }

  /** The rules the two seeding loops list, words first, placeholders after. */
  function Seeds(pcfg: seq<Rule>, words: seq<string>): seq<Rule>
    requires WellFormed(pcfg)
  {
    WellFormedHasOutput(pcfg);
    WordSeeds(pcfg, words, |words|) + PlaceholderSeeds(pcfg, |words|, |pcfg|)
  }

  lemma {:induction false} SeedsBuilt(pcfg: seq<Rule>, words: seq<string>)
    requires WellFormed(pcfg)
    ensures Built(pcfg, words, Seeds(pcfg, words))
  {
    WellFormedHasOutput(pcfg);
    var ws, ps := WordSeeds(pcfg, words, |words|), PlaceholderSeeds(pcfg, |words|, |pcfg|);
    WordSeedsDerived(pcfg, words, |words|);
    PlaceholderSeedsDerived(pcfg, |words|, |pcfg|);
    forall k | 0 <= k < |ws + ps|
      ensures Derived(pcfg, words, (ws + ps)[k])
    {
      if k < |ws| {
        assert (ws + ps)[k] == ws[k] && ws[k] in ws;
      } else {
        assert (ws + ps)[k] == ps[k - |ws|] && ps[k - |ws|] in ps;
      }
    }
  }

  /** A grammar rule whose first output names the last of `i` words is seeded over its span. */
  lemma {:induction false} WordSeedsLast(pcfg: seq<Rule>, words: seq<string>, i: nat, m: nat)
    requires HasOutput(pcfg) && 1 <= i <= |words| && m < |pcfg|
    requires SameName(pcfg[m].rhs[0], T(words[i - 1]))
    ensures Ground(pcfg[m], i - 1, i) in WordSeeds(pcfg, words, i)
  {
    var ms := Matching(pcfg, T(words[i - 1]));
    MatchingMembers(pcfg, T(words[i - 1]));
    assert pcfg[m] in pcfg;
    var k :| 0 <= k < |ms| && ms[k] == pcfg[m];
    var g := GroundAll(ms, i - 1, i);
    assert g[k] == Ground(pcfg[m], i - 1, i);
    assert g[k] in WordSeeds(pcfg, words, i - 1) + g;
  }


  /** Every grammar rule whose first output names word `w` is seeded grounded at [w, w + 1). */
  lemma {:induction false} WordSeedsComplete(pcfg: seq<Rule>, words: seq<string>, m: nat, w: nat)
    requires HasOutput(pcfg) && m < |pcfg| && w < |words|
    requires SameName(pcfg[m].rhs[0], T(words[w]))
    ensures Ground(pcfg[m], w, w + 1) in WordSeeds(pcfg, words, |words|)
  {
    WordSeedsUpTo(pcfg, words, m, w, |words|);
  }

  lemma {:induction false} WordSeedsUpTo(pcfg: seq<Rule>, words: seq<string>, m: nat, w: nat, i: nat)
    requires HasOutput(pcfg) && m < |pcfg| && w < i <= |words|
    requires SameName(pcfg[m].rhs[0], T(words[w]))
    ensures Ground(pcfg[m], w, w + 1) in WordSeeds(pcfg, words, i)
    decreases i
  {
    if i == w + 1 {
      WordSeedsLast(pcfg, words, i, m);
    } else {
      WordSeedsUpTo(pcfg, words, m, w, i - 1);
      InLeft(Ground(pcfg[m], w, w + 1), WordSeeds(pcfg, words, i - 1), GroundAll(Matching(pcfg, T(words[i - 1])), i - 1, i));
    }
  }


  /** Every terminal grammar rule is seeded grounded at the placeholder span. */
  lemma {:induction false} PlaceholderSeedsComplete(pcfg: seq<Rule>, n: int, j: nat, m: nat)
    requires j <= |pcfg| && m < j && IsTerminal(pcfg[m])
    ensures Ground(pcfg[m], n, n) in PlaceholderSeeds(pcfg, n, j)
    decreases j
  {
    if m < j - 1 {
      PlaceholderSeedsComplete(pcfg, n, j - 1, m);
    }
  }

  /** The seeds are exactly the word rules and the placeholder rules. */
  lemma {:induction false} SeedsExactly(pcfg: seq<Rule>, words: seq<string>, r: Rule)
    requires WellFormed(pcfg)
    ensures r in Seeds(pcfg, words) <==> WordRule(pcfg, words, r) || PlaceholderRule(pcfg, |words|, r)
  {
    WellFormedHasOutput(pcfg);
    var ws, ps := WordSeeds(pcfg, words, |words|), PlaceholderSeeds(pcfg, |words|, |pcfg|);
    WordSeedsDerived(pcfg, words, |words|);
    PlaceholderSeedsDerived(pcfg, |words|, |pcfg|);
    if WordRule(pcfg, words, r) {
      var m, i :| 0 <= m < |pcfg| && 0 <= i < |words| && |pcfg[m].rhs| >= 1 &&
        SameName(pcfg[m].rhs[0], T(words[i])) && r == Ground(pcfg[m], i, i + 1);
      WordSeedsComplete(pcfg, words, m, i);
    } else if PlaceholderRule(pcfg, |words|, r) {
      var m :| 0 <= m < |pcfg| && IsTerminal(pcfg[m]) && r == Ground(pcfg[m], |words|, |words|);
      PlaceholderSeedsComplete(pcfg, |words|, |pcfg|, m);
    }
    assert r in ws + ps <==> r in ws || r in ps;
  }

  lemma {:induction false} BuiltInSpace(pcfg: seq<Rule>, words: seq<string>, rules: seq<Rule>)
    requires WellFormed(pcfg) && Built(pcfg, words, rules)
    ensures InSpace(pcfg, |words|, rules)
  {
    forall k | 0 <= k < |rules|
      ensures InNTSpace(pcfg, |words|, rules[k].lhs)
    {
      DerivedShape(pcfg, words, rules[k]);
      var m :| 0 <= m < |pcfg| && rules[k].lhs.name == pcfg[m].lhs.name && rules[k].v == pcfg[m].v;
      assert TargetNames(pcfg)[m] == pcfg[m].lhs.name;
    }
  }

  lemma {:induction false} BuiltWellFormed(pcfg: seq<Rule>, words: seq<string>, rules: seq<Rule>)
    requires WellFormed(pcfg) && Built(pcfg, words, rules)
    ensures WellFormed(rules)
  {
    forall r | r in rules
      ensures WellFormedRule(r)
    {
      var k :| 0 <= k < |rules| && rules[k] == r;
      DerivedShape(pcfg, words, r);
    }
  }

  /** An appended rule combines two listed targets, so it is a binary rule of the construction. */
  lemma {:induction false} BuiltAt(key: Symbol -> string, pcfg: seq<Rule>, words: seq<string>, rules: seq<Rule>,
                                   more: seq<Rule>, i: nat)
    requires WellFormed(pcfg) && Built(pcfg, words, rules) && Extends(key, pcfg, rules, more) && i < |more|
    ensures Derived(pcfg, words, more[i])
    decreases i
  {
    if i < |rules| {
      assert more[i] == more[..|rules|][i];
    } else {
      assert Appended(key, pcfg, more, i);
      var j, a, b :| 0 <= j < |pcfg| && 0 <= a < i && 0 <= b < i &&
        Combines(pcfg[j], more[a].lhs, more[b].lhs) && more[i] == Combine(pcfg[j], more[a].lhs, more[b].lhs);
      BuiltAt(key, pcfg, words, rules, more, a);
      BuiltAt(key, pcfg, words, rules, more, b);
      DerivedShape(pcfg, words, more[a]);
      DerivedShape(pcfg, words, more[b]);
      assert BinaryRule(pcfg, |words|, more[i]);
    }
  }

  lemma {:induction false} ExtendsBuilt(key: Symbol -> string, pcfg: seq<Rule>, words: seq<string>, rules: seq<Rule>, more: seq<Rule>)
    requires WellFormed(pcfg) && Built(pcfg, words, rules) && Extends(key, pcfg, rules, more)
    ensures Built(pcfg, words, more)
  {
    forall i | 0 <= i < |more|
      ensures Derived(pcfg, words, more[i])
    {
      BuiltAt(key, pcfg, words, rules, more, i);
    }
  }

  /** From position `s` on, no rule equals one listed before it. */
  predicate FreshFrom(key: Symbol -> string, rules: seq<Rule>, s: nat) {
    forall i :: s <= i < |rules| ==> !Present(key, rules[i], rules[..i])
  }

  /** The rule list when the `while clear` loop of `intersect` exits. */
  function Closure(key: Symbol -> string, pcfg: seq<Rule>, words: seq<string>): seq<Rule>
    requires WellFormed(pcfg)
  {
    var n := |words|;
    SeedsBuilt(pcfg, words);
    BuiltInSpace(pcfg, words, Seeds(pcfg, words));
    CandKeysBound(key, pcfg, n);
    Saturate(key, pcfg, n, CandKeys(key, pcfg, n), Seeds(pcfg, words))
  }

  /**
   * The closure starts with the seeds, lists only rules of the three forms,
   * appends no rule equal to one already listed, and is closed under the
   * binary grammar rules.
   */
  lemma {:induction false} ClosureFacts(key: Symbol -> string, pcfg: seq<Rule>, words: seq<string>)
    requires WellFormed(pcfg)
    ensures var c, s := Closure(key, pcfg, words), Seeds(pcfg, words);
      |s| <= |c| && c[..|s|] == s && Built(pcfg, words, c) && FreshFrom(key, c, |s|) && Closed(key, pcfg, c)
  {
    var n, seeds := |words|, Seeds(pcfg, words);
    var cand := CandKeys(key, pcfg, n);
    SeedsBuilt(pcfg, words);
    BuiltInSpace(pcfg, words, seeds);
    CandKeysBound(key, pcfg, n);
    SaturateExtends(key, pcfg, n, cand, seeds);
    SaturateClosed(key, pcfg, n, cand, seeds);
    var c := Closure(key, pcfg, words);
    ExtendsBuilt(key, pcfg, words, seeds, c);
    forall i | |seeds| <= i < |c|
      ensures !Present(key, c[i], c[..i])
    {
      assert Appended(key, pcfg, c, i);
    }
  }

  /** The start symbol the result is pruned from: the first rule's target over the whole sentence. */
  function Goal(pcfg: seq<Rule>, words: seq<string>): Symbol
    requires |pcfg| >= 1
  {
    NT(pcfg[0].lhs.name, 0, |words|)
  }

  /** `intersect`: the closure pruned to the rules reachable from the goal. */
  function IntersectResult(pcfg: seq<Rule>, words: seq<string>): seq<Rule>
    requires |pcfg| >= 1 && WellFormed(pcfg)
  {
    var c := Closure(Str, pcfg, words);
    ClosureFacts(Str, pcfg, words);
    BuiltWellFormed(pcfg, words, c);
    Prune.Reachable(Str, c, Goal(pcfg, words))
  }

  /**
   * Every rule of the result has one of the three forms and targets a span
   * inside the sentence; no two are equal under `Rule.__eq__`; the result is
   * empty exactly when the closure has no rule for the goal, and otherwise
   * starts with one, which is the goal itself when no target name holds an
   * underscore.
   */
  lemma {:induction false} IntersectFacts(pcfg: seq<Rule>, words: seq<string>)
    requires |pcfg| >= 1 && WellFormed(pcfg)
    ensures var res := IntersectResult(pcfg, words);
      (forall r :: r in res ==> Derived(pcfg, words, r) && InRange(r.lhs, |words|)) &&
      Prune.NoDup(Str, res) &&
      (res == [] <==> forall k :: 0 <= k < |Closure(Str, pcfg, words)| ==>
        Str(Closure(Str, pcfg, words)[k].lhs) != Str(Goal(pcfg, words))) &&
      (res != [] ==> Str(res[0].lhs) == Str(Goal(pcfg, words)))
    ensures var res := IntersectResult(pcfg, words);
      res != [] && (forall m :: 0 <= m < |pcfg| ==> NoUnderscore(pcfg[m].lhs.name)) ==> res[0].lhs == Goal(pcfg, words)
  {
    var c, goal := Closure(Str, pcfg, words), Goal(pcfg, words);
    ClosureFacts(Str, pcfg, words);
    BuiltWellFormed(pcfg, words, c);
    var res := Prune.Reachable(Str, c, goal);
    Prune.ReachableSound(Str, c, goal);
    Prune.ReachableEmptyIff(Str, c, goal);
    forall r | r in res
      ensures Derived(pcfg, words, r) && InRange(r.lhs, |words|)
    {
      assert r in c;
      var k :| 0 <= k < |c| && c[k] == r;
      DerivedShape(pcfg, words, r);
    }
    if res != [] && (forall m :: 0 <= m < |pcfg| ==> NoUnderscore(pcfg[m].lhs.name)) {
      assert res[0] in res;
      DerivedShape(pcfg, words, res[0]);
      StrInjective(res[0].lhs, goal);
    }
  }

  // ---------------------------------------------------------------------
  // The loops of `intersect`.
  // ---------------------------------------------------------------------

  /**
   * `for nt2 in NonTerminals` for binary grammar rule `j` and first target
   * `nts0[a]`, re-reading the growing target list. `clear` becomes true when
   * a rule is appended.
   */
  method CombineWith(pcfg: seq<Rule>, n: nat, ghost cand: set<(string, string, string)>, j: nat, a: nat,
                     rules0: seq<Rule>, nts0: seq<Symbol>, clear0: bool)
    returns (rules: seq<Rule>, nts: seq<Symbol>, clear: bool)
    requires SweepArgs(Str, pcfg, n, cand, j, a, 0, rules0) && IsBinary(pcfg[j])
    requires Aligned(nts0, rules0)
    ensures rules == Sweep(Str, pcfg, n, cand, j, a, 0, rules0) && Aligned(nts, rules)
    ensures clear == (clear0 || |rules| != |rules0|)
  {
    var rule := pcfg[j];
    rules, nts, clear := rules0, nts0, clear0;
    var nt1 := nts[a];
    var k := 0;
    while k < |nts|
      invariant SweepArgs(Str, pcfg, n, cand, j, a, k, rules) && Aligned(nts, rules) && nt1 == rules[a].lhs
      invariant Sweep(Str, pcfg, n, cand, j, a, k, rules) == Sweep(Str, pcfg, n, cand, j, a, 0, rules0)
      invariant |rules0| <= |rules| && clear == (clear0 || |rules| != |rules0|)
      decreases Pending(Str, cand, rules), |rules| - k
    {
      var nt2 := nts[k];
      SweepStep(Str, pcfg, n, cand, j, a, k, rules);
      if SameName(rule.rhs[0], nt1) && SameName(rule.rhs[1], nt2) && nt1.s2 == nt2.s1 {
        var newRule := Rule(NT(rule.lhs.name, nt1.s1, nt2.s2), rule.v, [nt1, nt2]);
        if !Present(Str, newRule, rules) {
          AlignedAppend(nts, rules, newRule);
          rules := rules + [newRule];
          nts := nts + [NT(rule.lhs.name, nt1.s1, nt2.s2)];
          clear := true;
        }
      }
      k := k + 1;
    }
  }

  /** `for nt1 in NonTerminals` for binary grammar rule `j`, re-reading the growing target list. */
  method CombinePairs(pcfg: seq<Rule>, n: nat, ghost cand: set<(string, string, string)>, j: nat,
                      rules0: seq<Rule>, nts0: seq<Symbol>, clear0: bool)
    returns (rules: seq<Rule>, nts: seq<Symbol>, clear: bool)
    requires Bounds(Str, pcfg, n, cand) && j < |pcfg| && IsBinary(pcfg[j])
    requires InSpace(pcfg, n, rules0) && Aligned(nts0, rules0)
    ensures rules == SweepAll(Str, pcfg, n, cand, j, 0, rules0) && Aligned(nts, rules)
    ensures clear == (clear0 || |rules| != |rules0|)
  {
    rules, nts, clear := rules0, nts0, clear0;
    var a := 0;
    while a < |nts|
      invariant a <= |rules| && InSpace(pcfg, n, rules) && Aligned(nts, rules)
      invariant SweepAll(Str, pcfg, n, cand, j, a, rules) == SweepAll(Str, pcfg, n, cand, j, 0, rules0)
      invariant |rules0| <= |rules| && clear == (clear0 || |rules| != |rules0|)
      decreases Pending(Str, cand, rules), |rules| - a
    {
      SweepAllStep(Str, pcfg, n, cand, j, a, rules);
      rules, nts, clear := CombineWith(pcfg, n, cand, j, a, rules, nts, clear);
      a := a + 1;
    }
  }

  /** One pass of the `while clear` loop: clears the flag, then tries every binary grammar rule in order. */
  method CombinePass(pcfg: seq<Rule>, n: nat, ghost cand: set<(string, string, string)>,
                     rules0: seq<Rule>, nts0: seq<Symbol>)
    returns (rules: seq<Rule>, nts: seq<Symbol>, clear: bool)
    requires WellFormed(pcfg) && Bounds(Str, pcfg, n, cand) && InSpace(pcfg, n, rules0) && Aligned(nts0, rules0)
    ensures rules == PassFrom(Str, pcfg, n, cand, 0, rules0) && Aligned(nts, rules)
    ensures clear == (|rules| != |rules0|)
  {
    rules, nts, clear := rules0, nts0, false;
    var j := 0;
    while j < |pcfg|
      invariant j <= |pcfg| && InSpace(pcfg, n, rules) && Aligned(nts, rules)
      invariant PassFrom(Str, pcfg, n, cand, j, rules) == PassFrom(Str, pcfg, n, cand, 0, rules0)
      invariant |rules0| <= |rules| && clear == (|rules| != |rules0|)
    {
      if !IsTerminal(pcfg[j]) {
        assert pcfg[j] in pcfg;
        TerminalIffNotBinary(pcfg[j]);
        SweepAllExtends(Str, pcfg, n, cand, j, 0, rules);
        ExtendsInSpace(Str, pcfg, n, rules, SweepAll(Str, pcfg, n, cand, j, 0, rules));
        rules, nts, clear := CombinePairs(pcfg, n, cand, j, rules, nts, clear);
      }
      j := j + 1;
    }
  }

  /** `intersect`: seeds, closes under the binary rules until a pass appends nothing, then prunes. */
  method Intersect(pcfg: seq<Rule>, words: seq<string>) returns (res: seq<Rule>)
    requires |pcfg| >= 1 && WellFormed(pcfg)
    ensures res == IntersectResult(pcfg, words)
  {
    var initial := pcfg[0].lhs;
    var n := |words|;
    WellFormedHasOutput(pcfg);
    var rules, nts := SeedWords(pcfg, words);
    rules, nts := SeedPlaceholders(pcfg, n, rules, nts);
    ghost var seeds := rules;
    ghost var cand := CandKeys(Str, pcfg, n);
    SeedsBuilt(pcfg, words);
    BuiltInSpace(pcfg, words, seeds);
    CandKeysBound(Str, pcfg, n);
    var clear := true;
    while clear
      invariant InSpace(pcfg, n, rules) && Aligned(nts, rules)
      invariant Saturate(Str, pcfg, n, cand, rules) == Saturate(Str, pcfg, n, cand, seeds)
      invariant !clear ==> rules == Saturate(Str, pcfg, n, cand, seeds)
      decreases Pending(Str, cand, rules), if clear then 1 else 0
    {
      ghost var before := rules;
      PassExtends(Str, pcfg, n, cand, 0, rules);
      ExtendsStep(Str, pcfg, n, cand, rules, PassFrom(Str, pcfg, n, cand, 0, rules));
      rules, nts, clear := CombinePass(pcfg, n, cand, rules, nts);
    }
    ClosureFacts(Str, pcfg, words);
    BuiltWellFormed(pcfg, words, rules);
    res := Prune.RemoveUnreachableRules(rules, NT(initial.name, 0, n));
  }
}
