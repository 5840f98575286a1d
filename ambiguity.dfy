/**
 * Locating the ambiguating words of a sentence (`get_terminal_rules`,
 * `get_ambiguous_terminals`, `ambiguity_finder`).
 *
 * The disambiguating word is the first word of highest surprisal. The grammar
 * is intersected with the prefix before that word and with the prefix ending
 * at it; in each result the terminal rules whose targets share a grounded,
 * non-empty span are collected; the terminal rules of the first list whose
 * full rendering (weight included) appears nowhere in the second are reported
 * as (output word, end of target span).
 *
 * The surprisal of each prefix (a base-2 logarithm of a ratio of inside
 * weights) is taken as an input.
 */
module Ambiguity {
  import opened Wrappers
  import opened Grammar
  import Intersection
  import Counting

  // ---------------------------------------------------------------------
  // get_terminal_rules

  /** The terminal rules of `pcfg`, in order. */
  function TerminalRules(pcfg: seq<Rule>): seq<Rule>
    decreases |pcfg|
  {
    if pcfg == [] then []
    else
      var last := pcfg[|pcfg| - 1];
      TerminalRules(pcfg[..|pcfg| - 1]) + if IsTerminal(last) then [last] else []
  }

  lemma {:induction false} TerminalRulesMembers(pcfg: seq<Rule>, r: Rule)
    ensures r in TerminalRules(pcfg) <==> r in pcfg && IsTerminal(r)
    decreases |pcfg|
  {
    if pcfg != [] {
      var init, last := pcfg[..|pcfg| - 1], pcfg[|pcfg| - 1];
      TerminalRulesMembers(init, r);
      assert pcfg == init + [last];
    }
  }

  /** `get_terminal_rules`. */
  method GetTerminalRules(pcfg: seq<Rule>) returns (terms: seq<Rule>)
    ensures terms == TerminalRules(pcfg)
  {
    terms := [];
    var i := 0;
    while i < |pcfg|
      invariant i <= |pcfg| && terms == TerminalRules(pcfg[..i])
    {
      assert pcfg[..i + 1][..i] == pcfg[..i];
      if IsTerminal(pcfg[i]) {
        terms := terms + [pcfg[i]];
      }
      i := i + 1;
    }
    assert pcfg[..|pcfg|] == pcfg;
  }

  // ---------------------------------------------------------------------
  // get_ambiguous_terminals

  /** The test of the inner loop: same target name and span, and `t1` spans at least one word. */
  predicate Clash(t1: Rule, t2: Rule) {
    Start(t1.lhs) == Start(t2.lhs) && End(t1.lhs) == End(t2.lhs) && t1.lhs.name == t2.lhs.name &&
    Start(t1.lhs) != End(t1.lhs)
  }

  /** A rule whose target span is not empty. */
  predicate Wide(t: Rule) {
    Start(t.lhs) != End(t.lhs)
  }

  /** The inner loop for `t1 = ts[a]`, over `i2` in `[a, j)`: one copy of `t1` per clash. */
  function Clashes(ts: seq<Rule>, a: nat, j: nat): seq<Rule>
    requires a <= j <= |ts|
    decreases j
  {
    if j == a then []
    else Clashes(ts, a, j - 1) + if Clash(ts[a], ts[j - 1]) then [ts[a]] else []
  }

  /** The outer loop over the first `i` rules. */
  function AmbiguousUpTo(ts: seq<Rule>, i: nat): seq<Rule>
    requires i <= |ts|
  {
    if i == 0 then [] else AmbiguousUpTo(ts, i - 1) + Clashes(ts, i - 1, |ts|)
  }

  function Ambiguous(ts: seq<Rule>): seq<Rule> {
    AmbiguousUpTo(ts, |ts|)
  }

  /** `get_ambiguous_terminals`: nested loops, the inner one starting at the outer index. */
  method GetAmbiguousTerminals(ts: seq<Rule>) returns (ambi: seq<Rule>)
    ensures ambi == Ambiguous(ts)
  {
    ambi := [];
    var i1 := 0;
    while i1 < |ts|
      invariant i1 <= |ts| && ambi == AmbiguousUpTo(ts, i1)
    {
      var t1 := ts[i1];
      var i2 := i1;
      while i2 < |ts|
        invariant i1 <= i2 <= |ts| && ambi == AmbiguousUpTo(ts, i1) + Clashes(ts, i1, i2)
      {
        var t2 := ts[i2];
        if Start(t1.lhs) == Start(t2.lhs) && End(t1.lhs) == End(t2.lhs) && t1.lhs.name == t2.lhs.name &&
           Start(t1.lhs) != End(t1.lhs) {
          ambi := ambi + [t1];
        }
        i2 := i2 + 1;
      }
      i1 := i1 + 1;
    }
  }

  lemma {:induction false} ClashesMembers(ts: seq<Rule>, a: nat, j: nat, r: Rule)
    requires a <= j <= |ts|
    ensures r in Clashes(ts, a, j) ==> r == ts[a] && Wide(r)
    ensures a < j && Wide(ts[a]) ==> ts[a] in Clashes(ts, a, j)
    decreases j
  {
    if j > a {
      ClashesMembers(ts, a, j - 1, r);
    }
  }

  lemma {:induction false} AmbiguousUpToSound(ts: seq<Rule>, i: nat, r: Rule)
    requires i <= |ts| && r in AmbiguousUpTo(ts, i)
    ensures r in ts[..i] && Wide(r)
    decreases i
  {
    var before, last := AmbiguousUpTo(ts, i - 1), Clashes(ts, i - 1, |ts|);
    if r in before {
      AmbiguousUpToSound(ts, i - 1, r);
      Counting.PrefixContains(ts[..i - 1], ts[..i], r);
    } else {
      ClashesMembers(ts, i - 1, |ts|, r);
      assert ts[..i][i - 1] == ts[i - 1];
    }
  }

  lemma {:induction false} AmbiguousUpToComplete(ts: seq<Rule>, i: nat, a: nat)
    requires a < i <= |ts| && Wide(ts[a])
    ensures ts[a] in AmbiguousUpTo(ts, i)
    decreases i
  {
    var before, last := AmbiguousUpTo(ts, i - 1), Clashes(ts, i - 1, |ts|);
    if a == i - 1 {
      ClashesMembers(ts, a, |ts|, ts[a]);
      assert ts[a] in before + last;
    } else {
      AmbiguousUpToComplete(ts, i - 1, a);
      Counting.InLeft(ts[a], before, last);
    }
  }

  /**
   * Because the inner loop starts at the outer index, each rule is compared
   * with itself: every rule of `ts` with a non-empty target span is reported,
   * and nothing else is.
   */
  lemma {:induction false} AmbiguousMembers(ts: seq<Rule>, r: Rule)
    ensures r in Ambiguous(ts) <==> r in ts && Wide(r)
  {
    if r in Ambiguous(ts) {
      AmbiguousUpToSound(ts, |ts|, r);
      assert ts[..|ts|] == ts;
    }
    if r in ts && Wide(r) {
      var a :| 0 <= a < |ts| && ts[a] == r;
      AmbiguousUpToComplete(ts, |ts|, a);
    }
  }

  // ---------------------------------------------------------------------
  // The disambiguating index

  /** `d` is the first index at which `s` attains its maximum. */
  predicate FirstMax(s: seq<real>, d: nat) {
    d < |s| && (forall k :: 0 <= k < |s| ==> s[k] <= s[d]) && (forall k :: 0 <= k < d ==> s[k] < s[d])
  }

  /** A sequence has at most one first maximum. */
  lemma {:induction false} FirstMaxUnique(s: seq<real>, d1: nat, d2: nat)
    requires FirstMax(s, d1) && FirstMax(s, d2)
    ensures d1 == d2
  {
    assert s[d2] <= s[d1] && s[d1] <= s[d2];
  }

  /** `lst.index(max(lst))`: the maximum first, then the first position holding it. */
  method IndexOfMax(s: seq<real>) returns (d: nat)
    requires |s| >= 1
    ensures FirstMax(s, d)
  {
    var m := s[0];
    var k := 1;
    while k < |s|
      invariant 1 <= k <= |s| && m in s[..k]
      invariant forall a :: 0 <= a < k ==> s[a] <= m
    {
      if s[k] > m {
        m := s[k];
      }
      k := k + 1;
    }
    assert s[..|s|] == s;
    d := 0;
    while s[d] != m
      invariant d < |s| && m in s[d..]
      invariant forall a :: 0 <= a < d ==> s[a] != m
      decreases |s| - d
    {
      assert s[d..] == [s[d]] + s[d + 1..];
      d := d + 1;
    }
  }

  // ---------------------------------------------------------------------
  // The report

  /** No rule of `others` renders exactly as `t`. */
  predicate Unmatched(t: Rule, others: seq<Rule>) {
    forall k :: 0 <= k < |others| ==> !SameRendering(t, others[k])
  }

  /** `(t.output()[0], t.target().s2)`. */
  function Pair(t: Rule): (Symbol, int)
    requires |t.rhs| >= 1
  {
    (t.rhs[0], End(t.lhs))
  }

  /** The pairs of the rules of `a1` that render like no rule of `a2`, in the order of `a1`. */
  function Reported(a1: seq<Rule>, a2: seq<Rule>): seq<(Symbol, int)>
    requires Intersection.HasOutput(a1)
    decreases |a1|
  {
    if a1 == [] then []
    else
      var last := a1[|a1| - 1];
      Reported(a1[..|a1| - 1], a2) + if Unmatched(last, a2) then [Pair(last)] else []
  }

  lemma {:induction false} ReportedMembers(a1: seq<Rule>, a2: seq<Rule>, p: (Symbol, int))
    requires Intersection.HasOutput(a1)
    ensures p in Reported(a1, a2) <==> exists k :: 0 <= k < |a1| && Unmatched(a1[k], a2) && p == Pair(a1[k])
    decreases |a1|
  {
    if a1 != [] {
      var init := a1[..|a1| - 1];
      ReportedMembers(init, a2, p);
      if p in Reported(init, a2) {
        var k :| 0 <= k < |init| && Unmatched(init[k], a2) && p == Pair(init[k]);
        assert a1[k] == init[k];
      }
      if exists k :: 0 <= k < |a1| && Unmatched(a1[k], a2) && p == Pair(a1[k]) {
        var k :| 0 <= k < |a1| && Unmatched(a1[k], a2) && p == Pair(a1[k]);
        if k < |a1| - 1 {
          assert init[k] == a1[k];
        }
      }
    }
  }

  /** The report loop: a flag per rule of `a1`, cleared by any rule of `a2` rendering alike. */
  method Report(a1: seq<Rule>, a2: seq<Rule>) returns (res: seq<(Symbol, int)>)
    requires Intersection.HasOutput(a1)
    ensures res == Reported(a1, a2)
  {
    res := [];
    var i := 0;
    while i < |a1|
      invariant i <= |a1| && res == Reported(a1[..i], a2)
    {
      var t1 := a1[i];
      var check := true;
      var k := 0;
      while k < |a2|
        invariant k <= |a2| && (check <==> forall b :: 0 <= b < k ==> !SameRendering(t1, a2[b]))
      {
        if SameRendering(t1, a2[k]) {
          check := false;
        }
        k := k + 1;
      }
      assert a1[..i + 1][..i] == a1[..i];
      if check {
        res := res + [(t1.rhs[0], End(t1.lhs))];
      }
      i := i + 1;
    }
    assert a1[..|a1|] == a1;
  }

  // ---------------------------------------------------------------------
  // ambiguity_finder

  /** Rules produced by `intersect` have an output. */
  lemma {:induction false} ResultHasOutput(pcfg: seq<Rule>, words: seq<string>)
    requires |pcfg| >= 1 && WellFormed(pcfg)
    ensures Intersection.HasOutput(Ambiguous(TerminalRules(Intersection.IntersectResult(pcfg, words))))
  {
    var res := Intersection.IntersectResult(pcfg, words);
    var am := Ambiguous(TerminalRules(res));
    Intersection.IntersectFacts(pcfg, words);
    forall k | 0 <= k < |am|
      ensures |am[k].rhs| >= 1
    {
      AmbiguousMembers(TerminalRules(res), am[k]);
      TerminalRulesMembers(res, am[k]);
      Intersection.DerivedShape(pcfg, words, am[k]);
    }
  }

  /** The ambiguous terminal rules of the grammar intersected with `words`. */
  function AmbiguousOf(pcfg: seq<Rule>, words: seq<string>): seq<Rule>
    requires |pcfg| >= 1 && WellFormed(pcfg)
  {
    Ambiguous(TerminalRules(Intersection.IntersectResult(pcfg, words)))
  }

  /** What the finder reports for disambiguating index `d`. */
  function Finding(pcfg: seq<Rule>, words: seq<string>, d: nat): seq<(Symbol, int)>
    requires |pcfg| >= 1 && WellFormed(pcfg) && d < |words|
  {
    ResultHasOutput(pcfg, words[..d]);
    Reported(AmbiguousOf(pcfg, words[..d]), AmbiguousOf(pcfg, words[..d + 1]))
  }

  /**
   * `ambiguity_finder`, given the surprisal of each non-empty prefix
   * (`surprisals[k]` for `words[..k + 1]`). `None` when the sentence is empty,
   * where the source's `max` of no values fails.
   */
  method AmbiguityFinder(pcfg: seq<Rule>, words: seq<string>, surprisals: seq<real>)
    returns (res: Option<(seq<(Symbol, int)>, string)>)
    requires |pcfg| >= 1 && WellFormed(pcfg) && |surprisals| == |words|
    ensures res.None? <==> words == []
    ensures res.Some? ==> exists d: nat :: FirstMax(surprisals, d) && res.value == (Finding(pcfg, words, d), words[d])
  {
    if |surprisals| == 0 {
      return None;
    }
    var d := IndexOfMax(surprisals);
    var wcfg1 := Intersection.Intersect(pcfg, words[..d]);
    var wcfg2 := Intersection.Intersect(pcfg, words[..d + 1]);
    var terminals1 := GetTerminalRules(wcfg1);
    var terminals2 := GetTerminalRules(wcfg2);
    var ambi1 := GetAmbiguousTerminals(terminals1);
    var ambi2 := GetAmbiguousTerminals(terminals2);
    ResultHasOutput(pcfg, words[..d]);
    var pairs := Report(ambi1, ambi2);
    res := Some((pairs, words[d]));
  }

  /**
   * Each reported pair comes from a terminal rule of the first intersected
   * grammar: its word is that rule's output, its index the end of the rule's
   * target span, which lies in `1..d`; and no ambiguous terminal rule of the
   * second grammar renders like that rule.
   */
  lemma {:induction false} FindingFacts(pcfg: seq<Rule>, words: seq<string>, d: nat, p: (Symbol, int))
    requires |pcfg| >= 1 && WellFormed(pcfg) && d < |words| && p in Finding(pcfg, words, d)
    ensures exists t :: (t in Intersection.IntersectResult(pcfg, words[..d]) && IsTerminal(t) && Wide(t) &&
      |t.rhs| >= 1 && p == (t.rhs[0], End(t.lhs)) && Unmatched(t, AmbiguousOf(pcfg, words[..d + 1])))
    ensures 1 <= p.1 <= d
  {
    var w1 := Intersection.IntersectResult(pcfg, words[..d]);
    var a1, a2 := AmbiguousOf(pcfg, words[..d]), AmbiguousOf(pcfg, words[..d + 1]);
    ResultHasOutput(pcfg, words[..d]);
    ReportedMembers(a1, a2, p);
    var k :| 0 <= k < |a1| && Unmatched(a1[k], a2) && p == Pair(a1[k]);
    var t := a1[k];
    AmbiguousMembers(TerminalRules(w1), t);
    TerminalRulesMembers(w1, t);
    Intersection.IntersectFacts(pcfg, words[..d]);
    assert Intersection.InRange(t.lhs, d);
  }
}
