/**
 * The inside weight of a symbol in a weighted grammar (`inside`).
 *
 * A terminal and a zero-width nonterminal weigh 1. Any other symbol `A` sums
 * over the rules whose target renders as `A`: a rule with one output adds its
 * weight; a binary rule `A -> A C` (first output rendering as `A` itself) adds
 * `v * inside(C)` to the self-loop factor `x`; any other binary rule adds
 * `v * inside(B) * inside(C)`. The result is `sum / (1 - x)`, the solution of
 * `w = sum + x * w`.
 *
 * The source recursion need not terminate, so the model carries a recursion
 * budget `fuel`. `None` stands for the cases where the source fails: budget
 * exhausted, a rule with no output, or `1 - x == 0`.
 */
module InsideWeights {
  import opened Wrappers
  import opened Grammar

  /** The pair of accumulators `(sum, x)`. */
  datatype Totals = Totals(sum: real, x: real)

  /** `inside(pcfg, s)` within recursion budget `fuel`. */
  function Inside(pcfg: seq<Rule>, s: Symbol, fuel: nat): Option<real>
    decreases fuel, 1
  {
    if s.T? || s.s1 == s.s2 then Some(1.0)
    else if fuel == 0 then None
    else
      match Accumulate(pcfg, s, fuel - 1, |pcfg|)
      case None => None
      case Some(t) => if 1.0 - t.x == 0.0 then None else Some(t.sum / (1.0 - t.x))
  }

  /** The accumulators after the loop has read the first `j` rules. */
  function Accumulate(pcfg: seq<Rule>, s: Symbol, fuel: nat, j: nat): Option<Totals>
    requires j <= |pcfg|
    decreases fuel + 1, 0, j
  {
    if j == 0 then Some(Totals(0.0, 0.0))
    else
      match Accumulate(pcfg, s, fuel, j - 1)
      case None => None
      case Some(t) => Step(pcfg, s, fuel, pcfg[j - 1], t)
  }

  /** The loop body for one rule `q`. */
  function Step(pcfg: seq<Rule>, s: Symbol, fuel: nat, q: Rule, t: Totals): Option<Totals>
    decreases fuel + 1, 0, 0
  {
    if Str(q.lhs) != Str(s) then Some(t)
    else if |q.rhs| == 1 then Some(Totals(t.sum + q.v, t.x))
    else if |q.rhs| == 0 then None
    else if Str(s) == Str(q.rhs[0]) then
      match Inside(pcfg, q.rhs[1], fuel)
      case None => None
      case Some(c) => Some(Totals(t.sum, t.x + q.v * c))
    else
      match Inside(pcfg, q.rhs[0], fuel)
      case None => None
      case Some(b) =>
        match Inside(pcfg, q.rhs[1], fuel)
        case None => None
        case Some(c) => Some(Totals(t.sum + q.v * b * c, t.x))
  }

  /** A rule that feeds `x`: binary shape, first output rendering as the target. */
  predicate SelfLoop(q: Rule, s: Symbol) {
    Str(q.lhs) == Str(s) && |q.rhs| >= 2 && Str(q.rhs[0]) == Str(s)
  }

  /**
   * A weight once computed does not depend on the budget: a larger budget
   * yields the same value.
   */
  lemma {:induction false} InsideFuel(pcfg: seq<Rule>, s: Symbol, fuel: nat, more: nat)
    requires fuel <= more && Inside(pcfg, s, fuel).Some?
    ensures Inside(pcfg, s, more) == Inside(pcfg, s, fuel)
    decreases fuel, 1
  {
    if !(s.T? || s.s1 == s.s2) {
      AccumulateFuel(pcfg, s, fuel - 1, more - 1, |pcfg|);
    }
  }

  lemma {:induction false} AccumulateFuel(pcfg: seq<Rule>, s: Symbol, fuel: nat, more: nat, j: nat)
    requires j <= |pcfg| && fuel <= more && Accumulate(pcfg, s, fuel, j).Some?
    ensures Accumulate(pcfg, s, more, j) == Accumulate(pcfg, s, fuel, j)
    decreases fuel + 1, 0, j
  {
    if j > 0 {
      AccumulateFuel(pcfg, s, fuel, more, j - 1);
      var t := Accumulate(pcfg, s, fuel, j - 1).value;
      StepFuel(pcfg, s, fuel, more, pcfg[j - 1], t);
    }
  }

  lemma {:induction false} StepFuel(pcfg: seq<Rule>, s: Symbol, fuel: nat, more: nat, q: Rule, t: Totals)
    requires fuel <= more && Step(pcfg, s, fuel, q, t).Some?
    ensures Step(pcfg, s, more, q, t) == Step(pcfg, s, fuel, q, t)
    decreases fuel + 1, 0, 0
  {
    if Str(q.lhs) == Str(s) && |q.rhs| >= 2 {
      if Str(s) == Str(q.rhs[0]) {
        InsideFuel(pcfg, q.rhs[1], fuel, more);
        var a, b := Step(pcfg, s, more, q, t), Step(pcfg, s, fuel, q, t);
        assert a.Some? && a.value.sum == b.value.sum && a.value.x == b.value.x;
      } else {
        InsideFuel(pcfg, q.rhs[0], fuel, more);
        InsideFuel(pcfg, q.rhs[1], fuel, more);
        var a, b := Step(pcfg, s, more, q, t), Step(pcfg, s, fuel, q, t);
        assert a.Some? && a.value.sum == b.value.sum && a.value.x == b.value.x;
      }
    }
  }

  /**
   * The closed form solves the self-loop equation: the weight `w` of a symbol
   * that is neither terminal nor zero-width satisfies `w = sum + x * w`.
   */
  lemma {:induction false} InsideSolvesLoop(pcfg: seq<Rule>, s: Symbol, fuel: nat)
    requires !s.T? && s.s1 != s.s2 && Inside(pcfg, s, fuel + 1).Some?
    ensures Accumulate(pcfg, s, fuel, |pcfg|).Some?
    ensures var t, w := Accumulate(pcfg, s, fuel, |pcfg|).value, Inside(pcfg, s, fuel + 1).value;
      t.x != 1.0 && w == t.sum + t.x * w
  {
    var t := Accumulate(pcfg, s, fuel, |pcfg|).value;
    var w := Inside(pcfg, s, fuel + 1).value;
    assert w == t.sum / (1.0 - t.x);
    assert w * (1.0 - t.x) == t.sum;
  }

  /** Without a self-loop rule among the first `j`, the factor `x` stays 0. */
  lemma {:induction false} NoSelfLoopKeepsX(pcfg: seq<Rule>, s: Symbol, fuel: nat, j: nat)
    requires j <= |pcfg| && Accumulate(pcfg, s, fuel, j).Some?
    requires forall k :: 0 <= k < j ==> !SelfLoop(pcfg[k], s)
    ensures Accumulate(pcfg, s, fuel, j).value.x == 0.0
    decreases j
  {
    if j > 0 {
      NoSelfLoopKeepsX(pcfg, s, fuel, j - 1);
      StepKeepsX(pcfg, s, fuel, pcfg[j - 1], Accumulate(pcfg, s, fuel, j - 1).value);
    }
  }

  lemma {:induction false} StepKeepsX(pcfg: seq<Rule>, s: Symbol, fuel: nat, q: Rule, t: Totals)
    requires !SelfLoop(q, s) && Step(pcfg, s, fuel, q, t).Some?
    ensures Step(pcfg, s, fuel, q, t).value.x == t.x
  {
  }

  /**
   * With no self-loop rule for `s`, the weight of `s` is the plain sum over
   * its rules: `x = 0` and `sum / (1 - x) = sum`.
   */
  lemma {:induction false} InsideWithoutSelfLoop(pcfg: seq<Rule>, s: Symbol, fuel: nat)
    requires !s.T? && s.s1 != s.s2 && Accumulate(pcfg, s, fuel, |pcfg|).Some?
    requires forall k :: 0 <= k < |pcfg| ==> !SelfLoop(pcfg[k], s)
    ensures Inside(pcfg, s, fuel + 1) == Some(Accumulate(pcfg, s, fuel, |pcfg|).value.sum)
  {
    var t := Accumulate(pcfg, s, fuel, |pcfg|).value;
    NoSelfLoopKeepsX(pcfg, s, fuel, |pcfg|);
    assert t.sum / (1.0 - t.x) == t.sum;
  }

  /** The total weight of the one-output rules among the first `j` whose target renders as `s`. */
  function TerminalWeight(pcfg: seq<Rule>, s: Symbol, j: nat): real
    requires j <= |pcfg|
  {
    if j == 0 then 0.0
    else TerminalWeight(pcfg, s, j - 1) + if Str(pcfg[j - 1].lhs) == Str(s) && |pcfg[j - 1].rhs| == 1 then pcfg[j - 1].v else 0.0
  }

  /**
   * A symbol all of whose rules have one output weighs the total of those
   * rules' weights, whatever the budget above zero.
   */
  lemma {:induction false} InsideOfPreterminal(pcfg: seq<Rule>, s: Symbol, fuel: nat)
    requires !s.T? && s.s1 != s.s2
    requires forall k :: 0 <= k < |pcfg| && Str(pcfg[k].lhs) == Str(s) ==> |pcfg[k].rhs| == 1
    ensures Inside(pcfg, s, fuel + 1) == Some(TerminalWeight(pcfg, s, |pcfg|))
  {
    PreterminalTotals(pcfg, s, fuel, |pcfg|);
    var t := Accumulate(pcfg, s, fuel, |pcfg|).value;
    assert t.sum / (1.0 - t.x) == TerminalWeight(pcfg, s, |pcfg|);
  }

  lemma {:induction false} PreterminalTotals(pcfg: seq<Rule>, s: Symbol, fuel: nat, j: nat)
    requires j <= |pcfg|
    requires forall k :: 0 <= k < |pcfg| && Str(pcfg[k].lhs) == Str(s) ==> |pcfg[k].rhs| == 1
    ensures Accumulate(pcfg, s, fuel, j).Some?
    ensures Accumulate(pcfg, s, fuel, j).value.sum == TerminalWeight(pcfg, s, j)
    ensures Accumulate(pcfg, s, fuel, j).value.x == 0.0
    decreases j
  {
    if j > 0 {
      PreterminalTotals(pcfg, s, fuel, j - 1);
    }
  }
}
