/**
 * Pruning of a weighted grammar to the rules reachable from an initial
 * symbol (`remove_unreachable_rules`).
 *
 * The source walks a worklist `nont` of symbols, starting with the initial
 * one; for each worklist symbol it scans the whole grammar and keeps every
 * rule whose rendered target matches it and that is not already kept (by
 * rule equality), adding the outputs of each kept binary rule to the worklist
 * unless a symbol rendering the same is already there. Kept rules therefore
 * come in worklist order, not in input order.
 *
 * `Run` is that walk as a function; `RemoveUnreachableRules` is the loop, proved
 * to compute `Reachable`. The lemmas state what the kept list is: a selection
 * of input rules without duplicates, each reached from the initial symbol
 * through rules kept before it, holding every rule such a rule reaches, led
 * by a rule of the initial symbol, and a fixed point of a second pruning.
 *
 * The definitions take the symbol rendering as a parameter `key`, which the
 * loops instantiate with `Str`. The source only ever compares rendered
 * strings, so the proofs need nothing about how `Str` renders; keeping it
 * abstract keeps the rendering's definition out of every proof.
 */
module Prune {
  import opened Grammar
  import Counting

  /** Some worklist symbol renders as `s`. */
  predicate Listed(key: Symbol -> string, nont: seq<Symbol>, s: Symbol) {
    exists k :: 0 <= k < |nont| && key(nont[k]) == key(s)
  }

  /** Appends `s` to the worklist unless a symbol rendering the same is there already. */
  function AddIfAbsent(key: Symbol -> string, nont: seq<Symbol>, s: Symbol): seq<Symbol> {
    if Listed(key, nont, s) then nont else nont + [s]
  }

  /** The worklist after keeping rule `r`: a binary rule contributes both outputs, in order. */
  function Grow(key: Symbol -> string, nont: seq<Symbol>, r: Rule): seq<Symbol>
    requires WellFormedRule(r)
  {
    if IsTerminal(r) then nont else AddIfAbsent(key, AddIfAbsent(key, nont, r.rhs[0]), r.rhs[1])
  }

  /**
   * The kept list after the scan for a worklist symbol rendering as `t` has
   * looked at the first `j` rules of `p`, starting from the rules `kept`:
   * a rule is kept when its rendered target is `t` and no equal rule is kept.
   */
  function Keep(key: Symbol -> string, p: seq<Rule>, j: nat, t: string, kept: seq<Rule>): (res: seq<Rule>)
    requires j <= |p|
    ensures |res| >= |kept| && res[..|kept|] == kept
    ensures forall a :: |kept| <= a < |res| ==> res[a] in p && key(res[a].lhs) == t
    decreases j
  {
    if j == 0 then kept
    else
      var pre := Keep(key, p, j - 1, t, kept);
      if key(p[j - 1].lhs) == t && !Present(key, p[j - 1], pre) then pre + [p[j - 1]] else pre
  }

  /** The worklist after the same partial scan: each kept rule queues its outputs. */
  function Queue(key: Symbol -> string, p: seq<Rule>, j: nat, t: string, kept: seq<Rule>, nont: seq<Symbol>): seq<Symbol>
    requires WellFormed(p) && j <= |p|
    decreases j
  {
    if j == 0 then nont
    else
      var q := Queue(key, p, j - 1, t, kept, nont);
      if key(p[j - 1].lhs) == t && !Present(key, p[j - 1], Keep(key, p, j - 1, t, kept)) then Grow(key, q, p[j - 1]) else q
  }

  /** Every rendered symbol that can ever enter the worklist. */
  function Universe(key: Symbol -> string, p: seq<Rule>, initial: Symbol): set<string> {
    {key(initial)} + set r, k | r in p && 0 <= k < |r.rhs| :: key(r.rhs[k])
  }

  predicate DistinctKeys(key: Symbol -> string, nont: seq<Symbol>) {
    forall a, b :: 0 <= a < b < |nont| ==> key(nont[a]) != key(nont[b])
  }

  function KeySet(key: Symbol -> string, nont: seq<Symbol>): set<string> {
    set k | 0 <= k < |nont| :: key(nont[k])
  }

  predicate WorklistOk(key: Symbol -> string, p: seq<Rule>, nont: seq<Symbol>) {
    |nont| >= 1 && DistinctKeys(key, nont) && KeySet(key, nont) <= Universe(key, p, nont[0])
  }

  lemma {:induction false} KeySetCard(key: Symbol -> string, nont: seq<Symbol>)
    requires DistinctKeys(key, nont)
    ensures |KeySet(key, nont)| == |nont|
    decreases |nont|
  {
    if nont != [] {
      var front := nont[..|nont| - 1];
      var last := key(nont[|nont| - 1]);
      KeySetCard(key, front);
      forall x | x in KeySet(key, nont)
        ensures x in KeySet(key, front) + {last}
      {
        var k :| 0 <= k < |nont| && key(nont[k]) == x;
        if k < |front| {
          assert front[k] == nont[k];
        }
      }
      forall x | x in KeySet(key, front)
        ensures x in KeySet(key, nont)
      {
        var k :| 0 <= k < |front| && key(front[k]) == x;
        assert nont[k] == front[k];
      }
      assert last !in KeySet(key, front);
      assert KeySet(key, nont) == KeySet(key, front) + {last};
    }
  }

  lemma {:induction false} WorklistBound(key: Symbol -> string, p: seq<Rule>, nont: seq<Symbol>)
    requires WorklistOk(key, p, nont)
    ensures |nont| <= |Universe(key, p, nont[0])|
  {
    KeySetCard(key, nont);
    Counting.SubsetCard(KeySet(key, nont), Universe(key, p, nont[0]));
  }

  /** Presence survives appending. */
  lemma {:induction false} PresentExtends(key: Symbol -> string, r: Rule, rs: seq<Rule>, more: seq<Rule>)
    requires Present(key, r, rs)
    requires |more| >= |rs| && more[..|rs|] == rs
    ensures Present(key, r, more)
  {
    var k :| 0 <= k < |rs| && RuleEq(key, rs[k], r);
    assert more[k] == rs[k];
  }

  /** After a scan, every scanned rule with the scanned target is kept, up to rule equality. */
  lemma {:induction false} KeepComplete(key: Symbol -> string, p: seq<Rule>, j: nat, t: string, kept: seq<Rule>)
    requires j <= |p|
    ensures forall m :: 0 <= m < j && key(p[m].lhs) == t ==> Present(key, p[m], Keep(key, p, j, t, kept))
    decreases j
  {
    if j > 0 {
      KeepComplete(key, p, j - 1, t, kept);
      var pre := Keep(key, p, j - 1, t, kept);
      var res := Keep(key, p, j, t, kept);
      assert |res| >= |pre| && res[..|pre|] == pre;
      forall m | 0 <= m < j && key(p[m].lhs) == t
        ensures Present(key, p[m], res)
      {
        if m < j - 1 || Present(key, p[m], pre) {
          PresentExtends(key, p[m], pre, res);
        } else {
          assert res[|res| - 1] == p[m];
        }
      }
    }
  }

  lemma {:induction false} AddIfAbsentFacts(key: Symbol -> string, p: seq<Rule>, first: Symbol, nont: seq<Symbol>, s: Symbol)
    requires |nont| >= 1 && nont[0] == first && DistinctKeys(key, nont) && KeySet(key, nont) <= Universe(key, p, first)
    requires key(s) in Universe(key, p, first)
    ensures |AddIfAbsent(key, nont, s)| >= |nont| && AddIfAbsent(key, nont, s)[..|nont|] == nont
    ensures DistinctKeys(key, AddIfAbsent(key, nont, s)) && KeySet(key, AddIfAbsent(key, nont, s)) <= Universe(key, p, first)
  {
    var res := AddIfAbsent(key, nont, s);
    if res != nont {
      assert res == nont + [s];
      forall x | x in KeySet(key, res)
        ensures x in KeySet(key, nont) || x == key(s)
      {
        var k :| 0 <= k < |res| && key(res[k]) == x;
        if k < |nont| {
          assert res[k] == nont[k];
        }
      }
    }
  }

  /** Keeping one rule only extends the worklist, and keeps it well formed. */
  lemma {:induction false} GrowExtends(key: Symbol -> string, p: seq<Rule>, nont: seq<Symbol>, r: Rule)
    requires WellFormed(p) && WorklistOk(key, p, nont) && r in p
    ensures |Grow(key, nont, r)| >= |nont| && Grow(key, nont, r)[..|nont|] == nont
    ensures WorklistOk(key, p, Grow(key, nont, r))
  {
    if !IsTerminal(r) {
      assert WellFormedRule(r);
      assert key(r.rhs[0]) in Universe(key, p, nont[0]) && key(r.rhs[1]) in Universe(key, p, nont[0]);
      AddIfAbsentFacts(key, p, nont[0], nont, r.rhs[0]);
      AddIfAbsentFacts(key, p, nont[0], AddIfAbsent(key, nont, r.rhs[0]), r.rhs[1]);
    }
  }

  /** What keeping one rule adds to the worklist: outputs of that rule, if binary. */
  lemma {:induction false} GrowSources(key: Symbol -> string, nont: seq<Symbol>, r: Rule)
    requires WellFormedRule(r)
    ensures |Grow(key, nont, r)| >= |nont| && Grow(key, nont, r)[..|nont|] == nont
    ensures forall k :: |nont| <= k < |Grow(key, nont, r)| ==> IsBinary(r) && Grow(key, nont, r)[k] in r.rhs
  {
  }

  /** Being listed survives extending the worklist. */
  lemma {:induction false} ListedExtends(key: Symbol -> string, nont: seq<Symbol>, more: seq<Symbol>, s: Symbol)
    requires Listed(key, nont, s) && |more| >= |nont| && more[..|nont|] == nont
    ensures Listed(key, more, s)
  {
    var k :| 0 <= k < |nont| && key(nont[k]) == key(s);
    assert more[k] == nont[k];
  }

  lemma {:induction false} AddIfAbsentListed(key: Symbol -> string, nont: seq<Symbol>, s: Symbol)
    ensures |AddIfAbsent(key, nont, s)| >= |nont| && AddIfAbsent(key, nont, s)[..|nont|] == nont
    ensures Listed(key, AddIfAbsent(key, nont, s), s)
  {
    if !Listed(key, nont, s) {
      assert AddIfAbsent(key, nont, s)[|nont|] == s;
    }
  }

  /** After keeping a binary rule, both of its outputs are listed. */
  lemma {:induction false} GrowListed(key: Symbol -> string, nont: seq<Symbol>, r: Rule)
    requires WellFormedRule(r) && IsBinary(r)
    ensures |Grow(key, nont, r)| >= |nont| && Grow(key, nont, r)[..|nont|] == nont
    ensures Listed(key, Grow(key, nont, r), r.rhs[0]) && Listed(key, Grow(key, nont, r), r.rhs[1])
  {
    var mid := AddIfAbsent(key, nont, r.rhs[0]);
    AddIfAbsentListed(key, nont, r.rhs[0]);
    AddIfAbsentListed(key, mid, r.rhs[1]);
    TerminalIffNotBinary(r);
    assert Grow(key, nont, r) == AddIfAbsent(key, mid, r.rhs[1]);
    ListedExtends(key, mid, Grow(key, nont, r), r.rhs[0]);
  }

  /**
   * The worklist walk: process worklist entries from index `i` on, given the
   * worklist `nont` and the rules `kept` so far.
   */
  function Run(key: Symbol -> string, p: seq<Rule>, nont: seq<Symbol>, i: nat, kept: seq<Rule>): seq<Rule>
    requires WellFormed(p) && WorklistOk(key, p, nont) && i <= |nont|
    decreases |Universe(key, p, nont[0])| - i
  {
    if i == |nont| then kept
    else
      var t := key(nont[i]);
      QueueExtends(key, p, |p|, t, kept, nont);
      WorklistBound(key, p, nont);
      Run(key, p, Queue(key, p, |p|, t, kept, nont), i + 1, Keep(key, p, |p|, t, kept))
  }

  /** A scan only extends the worklist. */
  lemma {:induction false} QueuePrefix(key: Symbol -> string, p: seq<Rule>, j: nat, t: string, kept: seq<Rule>, nont: seq<Symbol>)
    requires WellFormed(p) && j <= |p|
    ensures |Queue(key, p, j, t, kept, nont)| >= |nont| && Queue(key, p, j, t, kept, nont)[..|nont|] == nont
    decreases j
  {
    if j > 0 {
      QueuePrefix(key, p, j - 1, t, kept, nont);
      GrowSources(key, Queue(key, p, j - 1, t, kept, nont), p[j - 1]);
    }
  }

  /** A scan keeps the worklist well formed. */
  lemma {:induction false} QueueExtends(key: Symbol -> string, p: seq<Rule>, j: nat, t: string, kept: seq<Rule>, nont: seq<Symbol>)
    requires WellFormed(p) && WorklistOk(key, p, nont) && j <= |p|
    ensures |Queue(key, p, j, t, kept, nont)| >= |nont| && Queue(key, p, j, t, kept, nont)[..|nont|] == nont
    ensures WorklistOk(key, p, Queue(key, p, j, t, kept, nont))
    decreases j
  {
    if j > 0 {
      QueueExtends(key, p, j - 1, t, kept, nont);
      var q := Queue(key, p, j - 1, t, kept, nont);
      if key(p[j - 1].lhs) == t && !Present(key, p[j - 1], Keep(key, p, j - 1, t, kept)) {
        GrowExtends(key, p, q, p[j - 1]);
        assert q[0] == nont[0];
      }
    }
  }

  lemma {:induction false} InitialWorklistOk(key: Symbol -> string, p: seq<Rule>, initial: Symbol)
    ensures WorklistOk(key, p, [initial])
  {
    assert KeySet(key, [initial]) == {key(initial)};
  }

  /** The rules of `p` reachable from `initial`, in the order the source keeps them. */
  function Reachable(key: Symbol -> string, p: seq<Rule>, initial: Symbol): seq<Rule>
    requires WellFormed(p)
  {
    InitialWorklistOk(key, p, initial);
    Run(key, p, [initial], 0, [])
  }

  /** Queues the outputs of a kept binary rule whose rendering is not queued yet. */
  method QueueOutputs(nont0: seq<Symbol>, rule: Rule) returns (nont: seq<Symbol>)
    requires WellFormedRule(rule)
    ensures nont == Grow(Str, nont0, rule)
  {
    nont := nont0;
    if !IsTerminal(rule) {
      if !Listed(Str, nont, rule.rhs[0]) {
        nont := nont + [rule.rhs[0]];
      }
      if !Listed(Str, nont, rule.rhs[1]) {
        nont := nont + [rule.rhs[1]];
      }
    }
  }

  /**
   * The inner loop of `remove_unreachable_rules`: one pass over the whole
   * grammar for the worklist symbol `nt`, keeping the new rules with its
   * target and queueing the outputs of the kept binary ones.
   */
  method ScanGrammar(p: seq<Rule>, nt: Symbol, kept0: seq<Rule>, nont0: seq<Symbol>)
    returns (kept: seq<Rule>, nont: seq<Symbol>)
    requires WellFormed(p)
    ensures kept == Keep(Str, p, |p|, Str(nt), kept0)
    ensures nont == Queue(Str, p, |p|, Str(nt), kept0, nont0)
  {
    kept, nont := kept0, nont0;
    var j := 0;
    while j < |p|
      invariant 0 <= j <= |p|
      invariant kept == Keep(Str, p, j, Str(nt), kept0)
      invariant nont == Queue(Str, p, j, Str(nt), kept0, nont0)
    {
      var rule := p[j];
      if Str(nt) == Str(rule.lhs) && !Present(Str, rule, kept) {
        kept := kept + [rule];
        nont := QueueOutputs(nont, rule);
      }
      j := j + 1;
    }
  }

  /** `remove_unreachable_rules`: walks the worklist, scanning the grammar for each entry. */
  method RemoveUnreachableRules(p: seq<Rule>, initial: Symbol) returns (kept: seq<Rule>)
    requires WellFormed(p)
    ensures kept == Reachable(Str, p, initial)
  {
    var nont := [initial];
    kept := [];
    InitialWorklistOk(Str, p, initial);
    var i := 0;
    while i < |nont|
      invariant WorklistOk(Str, p, nont) && nont[0] == initial && i <= |nont|
      invariant Run(Str, p, nont, i, kept) == Reachable(Str, p, initial)
      decreases |Universe(Str, p, initial)| - i
    {
      ghost var kept0, nont0 := kept, nont;
      kept, nont := ScanGrammar(p, nont[i], kept, nont);
      QueueExtends(Str, p, |p|, Str(nont0[i]), kept0, nont0);
      WorklistBound(Str, p, nont0);
      i := i + 1;
    }
  }

  // ---------------------------------------------------------------------
  // What the kept list is.
  // ---------------------------------------------------------------------

  /** Rule `b` is binary and one of its outputs renders as symbol `s`. */
  predicate Feeds(key: Symbol -> string, b: Rule, s: Symbol) {
    IsBinary(b) && (key(b.rhs[0]) == key(s) || key(b.rhs[1]) == key(s))
  }

  predicate Selected(p: seq<Rule>, kept: seq<Rule>) {
    forall r :: r in kept ==> r in p
  }

  /** No two kept rules are equal under `Rule.__eq__`. */
  predicate NoDup(key: Symbol -> string, kept: seq<Rule>) {
    forall a, b :: 0 <= a < b < |kept| ==> !RuleEq(key, kept[a], kept[b])
  }

  /** Some binary rule of `rs` has an output rendering as `s`. */
  predicate FedBy(key: Symbol -> string, rs: seq<Rule>, s: Symbol) {
    exists b :: 0 <= b < |rs| && Feeds(key, rs[b], s)
  }

  /** Kept rule `a` targets the initial symbol or an output of a binary rule kept before it. */
  predicate GroundedAt(key: Symbol -> string, kept: seq<Rule>, a: nat, initial: Symbol)
    requires a < |kept|
  {
    key(kept[a].lhs) == key(initial) || FedBy(key, kept[..a], kept[a].lhs)
  }

  predicate Grounded(key: Symbol -> string, kept: seq<Rule>, initial: Symbol) {
    forall a :: 0 <= a < |kept| ==> GroundedAt(key, kept, a, initial)
  }

  /** Each queued symbol but the first is an output of a kept binary rule. */
  predicate Sourced(key: Symbol -> string, nont: seq<Symbol>, kept: seq<Rule>) {
    forall k :: 1 <= k < |nont| ==> FedBy(key, kept, nont[k])
  }

  /** Every output of a kept binary rule renders as a queued symbol. */
  predicate Covers(key: Symbol -> string, nont: seq<Symbol>, kept: seq<Rule>) {
    forall b :: 0 <= b < |kept| && IsBinary(kept[b]) ==>
      Listed(key, nont, kept[b].rhs[0]) && Listed(key, nont, kept[b].rhs[1])
  }

  /** What every kept rule preserves. */
  predicate KeptOk(key: Symbol -> string, p: seq<Rule>, initial: Symbol, nont: seq<Symbol>, kept: seq<Rule>) {
    WellFormed(p) && WorklistOk(key, p, nont) && nont[0] == initial &&
    Selected(p, kept) && NoDup(key, kept) && Grounded(key, kept, initial) && Sourced(key, nont, kept) && Covers(key, nont, kept)
  }

  lemma {:induction false} AppendNoDup(key: Symbol -> string, kept: seq<Rule>, r: Rule)
    requires NoDup(key, kept) && !Present(key, r, kept)
    ensures NoDup(key, kept + [r])
  {
    var res := kept + [r];
    forall a, b | 0 <= a < b < |res|
      ensures !RuleEq(key, res[a], res[b])
    {
      if b == |kept| {
        assert res[a] == kept[a];
      }
    }
  }

  lemma {:induction false} GroundedAtExtends(key: Symbol -> string, kept: seq<Rule>, more: seq<Rule>, a: nat, initial: Symbol)
    requires a < |kept| <= |more| && more[..|kept|] == kept
    requires GroundedAt(key, kept, a, initial)
    ensures GroundedAt(key, more, a, initial)
  {
    assert more[..a] == kept[..a] && more[a] == kept[a];
  }

  lemma {:induction false} FedByExtends(key: Symbol -> string, rs: seq<Rule>, more: seq<Rule>, s: Symbol)
    requires FedBy(key, rs, s) && |rs| <= |more| && more[..|rs|] == rs
    ensures FedBy(key, more, s)
  {
    var b :| 0 <= b < |rs| && Feeds(key, rs[b], s);
    assert more[b] == rs[b];
  }

  lemma {:induction false} FedBySameRendering(key: Symbol -> string, rs: seq<Rule>, s: Symbol, u: Symbol)
    requires FedBy(key, rs, s) && key(s) == key(u)
    ensures FedBy(key, rs, u)
  {
    var b :| 0 <= b < |rs| && Feeds(key, rs[b], s);
    assert Feeds(key, rs[b], u);
  }

  lemma {:induction false} AppendGrounded(key: Symbol -> string, nont: seq<Symbol>, i: nat, kept: seq<Rule>, initial: Symbol, r: Rule)
    requires Grounded(key, kept, initial) && Sourced(key, nont, kept)
    requires i < |nont| && nont[0] == initial && key(r.lhs) == key(nont[i])
    ensures Grounded(key, kept + [r], initial)
  {
    var res := kept + [r];
    assert res[..|kept|] == kept;
    forall a | 0 <= a < |res|
      ensures GroundedAt(key, res, a, initial)
    {
      if a < |kept| {
        GroundedAtExtends(key, kept, res, a, initial);
      } else if i > 0 {
        FedBySameRendering(key, kept, nont[i], r.lhs);
        assert res[..a] == kept && res[a] == r;
      } else {
        assert res[a] == r;
      }
    }
  }

  lemma {:induction false} AppendSourced(key: Symbol -> string, nont: seq<Symbol>, kept: seq<Rule>, r: Rule)
    requires WellFormedRule(r) && Sourced(key, nont, kept)
    ensures Sourced(key, Grow(key, nont, r), kept + [r])
  {
    var q := Grow(key, nont, r);
    var res := kept + [r];
    GrowSources(key, nont, r);
    assert res[..|kept|] == kept;
    forall k | 1 <= k < |q|
      ensures FedBy(key, res, q[k])
    {
      if k < |nont| {
        FedByExtends(key, kept, res, nont[k]);
        assert q[k] == nont[k];
      } else {
        assert res[|kept|] == r && Feeds(key, r, q[k]);
      }
    }
  }

  lemma {:induction false} AppendCovers(key: Symbol -> string, nont: seq<Symbol>, kept: seq<Rule>, r: Rule)
    requires WellFormedRule(r) && Covers(key, nont, kept)
    ensures Covers(key, Grow(key, nont, r), kept + [r])
  {
    var q := Grow(key, nont, r);
    var res := kept + [r];
    GrowSources(key, nont, r);
    forall b | 0 <= b < |res| && IsBinary(res[b])
      ensures Listed(key, q, res[b].rhs[0]) && Listed(key, q, res[b].rhs[1])
    {
      if b < |kept| {
        assert res[b] == kept[b];
        ListedExtends(key, nont, q, kept[b].rhs[0]);
        ListedExtends(key, nont, q, kept[b].rhs[1]);
      } else {
        assert res[b] == r;
        GrowListed(key, nont, r);
      }
    }
  }

  /** A partial scan keeps selecting rules of `p` without duplicates. */
  lemma {:induction false} ScanNoDup(key: Symbol -> string, p: seq<Rule>, j: nat, t: string, kept: seq<Rule>)
    requires j <= |p| && Selected(p, kept) && NoDup(key, kept)
    ensures Selected(p, Keep(key, p, j, t, kept)) && NoDup(key, Keep(key, p, j, t, kept))
    decreases j
  {
    if j > 0 {
      ScanNoDup(key, p, j - 1, t, kept);
      var pre := Keep(key, p, j - 1, t, kept);
      if key(p[j - 1].lhs) == t && !Present(key, p[j - 1], pre) {
        AppendNoDup(key, pre, p[j - 1]);
        assert Keep(key, p, j, t, kept) == pre + [p[j - 1]];
      }
    }
  }

  lemma {:induction false} ScanSourced(key: Symbol -> string, p: seq<Rule>, j: nat, t: string, kept: seq<Rule>, nont: seq<Symbol>)
    requires WellFormed(p) && j <= |p| && Sourced(key, nont, kept)
    ensures Sourced(key, Queue(key, p, j, t, kept, nont), Keep(key, p, j, t, kept))
    decreases j
  {
    if j > 0 {
      ScanSourced(key, p, j - 1, t, kept, nont);
      var pre := Keep(key, p, j - 1, t, kept);
      var q := Queue(key, p, j - 1, t, kept, nont);
      if key(p[j - 1].lhs) == t && !Present(key, p[j - 1], pre) {
        AppendSourced(key, q, pre, p[j - 1]);
        assert Keep(key, p, j, t, kept) == pre + [p[j - 1]];
        assert Queue(key, p, j, t, kept, nont) == Grow(key, q, p[j - 1]);
      }
    }
  }

  lemma {:induction false} ScanCovers(key: Symbol -> string, p: seq<Rule>, j: nat, t: string, kept: seq<Rule>, nont: seq<Symbol>)
    requires WellFormed(p) && j <= |p| && Covers(key, nont, kept)
    ensures Covers(key, Queue(key, p, j, t, kept, nont), Keep(key, p, j, t, kept))
    decreases j
  {
    if j > 0 {
      ScanCovers(key, p, j - 1, t, kept, nont);
      var pre := Keep(key, p, j - 1, t, kept);
      var q := Queue(key, p, j - 1, t, kept, nont);
      if key(p[j - 1].lhs) == t && !Present(key, p[j - 1], pre) {
        AppendCovers(key, q, pre, p[j - 1]);
        assert Keep(key, p, j, t, kept) == pre + [p[j - 1]];
        assert Queue(key, p, j, t, kept, nont) == Grow(key, q, p[j - 1]);
      }
    }
  }

  lemma {:induction false} ScanGrounded(key: Symbol -> string, p: seq<Rule>, j: nat, i: nat, kept: seq<Rule>, nont: seq<Symbol>, initial: Symbol)
    requires WellFormed(p) && j <= |p| && i < |nont| && nont[0] == initial
    requires Grounded(key, kept, initial) && Sourced(key, nont, kept)
    ensures Grounded(key, Keep(key, p, j, key(nont[i]), kept), initial)
    decreases j
  {
    if j > 0 {
      var t := key(nont[i]);
      ScanGrounded(key, p, j - 1, i, kept, nont, initial);
      var pre := Keep(key, p, j - 1, t, kept);
      var q := Queue(key, p, j - 1, t, kept, nont);
      if key(p[j - 1].lhs) == t && !Present(key, p[j - 1], pre) {
        ScanSourced(key, p, j - 1, t, kept, nont);
        QueuePrefix(key, p, j - 1, t, kept, nont);
        assert q[i] == nont[i] && q[0] == nont[0];
        AppendGrounded(key, q, i, pre, initial, p[j - 1]);
        assert Keep(key, p, j, t, kept) == pre + [p[j - 1]];
      }
    }
  }

  /** The scan for worklist entry `i` preserves `KeptOk`. */
  lemma {:induction false} ScanKeptOk(key: Symbol -> string, p: seq<Rule>, initial: Symbol, nont: seq<Symbol>, i: nat, kept: seq<Rule>)
    requires KeptOk(key, p, initial, nont, kept) && i < |nont|
    ensures |Queue(key, p, |p|, key(nont[i]), kept, nont)| >= |nont|
    ensures Queue(key, p, |p|, key(nont[i]), kept, nont)[..|nont|] == nont
    ensures KeptOk(key, p, initial, Queue(key, p, |p|, key(nont[i]), kept, nont), Keep(key, p, |p|, key(nont[i]), kept))
  {
    var t := key(nont[i]);
    QueueExtends(key, p, |p|, t, kept, nont);
    ScanNoDup(key, p, |p|, t, kept);
    ScanSourced(key, p, |p|, t, kept, nont);
    ScanCovers(key, p, |p|, t, kept, nont);
    ScanGrounded(key, p, |p|, i, kept, nont, initial);
  }

  /** Every rule of `p` whose target renders as one of the first `i` queued symbols is kept. */
  predicate Done(key: Symbol -> string, p: seq<Rule>, nont: seq<Symbol>, i: nat, kept: seq<Rule>)
    requires i <= |nont|
  {
    forall m, k :: 0 <= m < |p| && 0 <= k < i && key(p[m].lhs) == key(nont[k]) ==> Present(key, p[m], kept)
  }

  /** The scan for worklist entry `i` finishes that entry. */
  lemma {:induction false} NextDone(key: Symbol -> string, p: seq<Rule>, nont: seq<Symbol>, i: nat, kept: seq<Rule>)
    requires WellFormed(p) && WorklistOk(key, p, nont) && i < |nont| && Done(key, p, nont, i, kept)
    ensures |Queue(key, p, |p|, key(nont[i]), kept, nont)| >= |nont|
    ensures Done(key, p, Queue(key, p, |p|, key(nont[i]), kept, nont), i + 1, Keep(key, p, |p|, key(nont[i]), kept))
  {
    var t := key(nont[i]);
    var res := Keep(key, p, |p|, t, kept);
    var q := Queue(key, p, |p|, t, kept, nont);
    QueueExtends(key, p, |p|, t, kept, nont);
    KeepComplete(key, p, |p|, t, kept);
    forall m, k | 0 <= m < |p| && 0 <= k < i + 1 && key(p[m].lhs) == key(q[k])
      ensures Present(key, p[m], res)
    {
      assert q[k] == nont[k];
      if k < i {
        PresentExtends(key, p[m], kept, res);
      }
    }
  }

  /** The rest of the walk keeps `KeptOk` and finishes every entry of the final worklist `fin`. */
  lemma {:induction false} RunFacts(key: Symbol -> string, p: seq<Rule>, initial: Symbol, nont: seq<Symbol>, i: nat, kept: seq<Rule>)
    returns (fin: seq<Symbol>)
    requires KeptOk(key, p, initial, nont, kept) && i <= |nont| && Done(key, p, nont, i, kept)
    ensures KeptOk(key, p, initial, fin, Run(key, p, nont, i, kept))
    ensures Done(key, p, fin, |fin|, Run(key, p, nont, i, kept))
    decreases |Universe(key, p, nont[0])| - i
  {
    if i == |nont| {
      fin := nont;
    } else {
      var t := key(nont[i]);
      ScanKeptOk(key, p, initial, nont, i, kept);
      NextDone(key, p, nont, i, kept);
      WorklistBound(key, p, nont);
      fin := RunFacts(key, p, initial, Queue(key, p, |p|, t, kept, nont), i + 1, Keep(key, p, |p|, t, kept));
    }
  }

  /** The facts about the whole pass, with the worklist it ends on. */
  lemma {:induction false} ReachableFacts(key: Symbol -> string, p: seq<Rule>, initial: Symbol) returns (fin: seq<Symbol>)
    requires WellFormed(p)
    ensures KeptOk(key, p, initial, fin, Reachable(key, p, initial))
    ensures Done(key, p, fin, |fin|, Reachable(key, p, initial))
  {
    InitialWorklistOk(key, p, initial);
    fin := RunFacts(key, p, initial, [initial], 0, []);
  }

  /**
   * Soundness: the pass keeps rules of its input, no two equal under
   * `Rule.__eq__`, each targeting the initial symbol or an output of a binary
   * rule kept before it.
   */
  lemma {:induction false} ReachableSound(key: Symbol -> string, p: seq<Rule>, initial: Symbol)
    requires WellFormed(p)
    ensures Selected(p, Reachable(key, p, initial))
    ensures NoDup(key, Reachable(key, p, initial))
    ensures Grounded(key, Reachable(key, p, initial), initial)
  {
    var fin := ReachableFacts(key, p, initial);
  }

  /**
   * Completeness: every input rule whose target renders as the initial symbol
   * or as an output of a kept binary rule is kept, up to `Rule.__eq__`.
   */
  lemma {:induction false} ReachableComplete(key: Symbol -> string, p: seq<Rule>, initial: Symbol)
    requires WellFormed(p)
    ensures forall m :: 0 <= m < |p| && key(p[m].lhs) == key(initial) ==> Present(key, p[m], Reachable(key, p, initial))
    ensures forall m :: 0 <= m < |p| && FedBy(key, Reachable(key, p, initial), p[m].lhs) ==>
      Present(key, p[m], Reachable(key, p, initial))
  {
    var res := Reachable(key, p, initial);
    var fin := ReachableFacts(key, p, initial);
    forall m | 0 <= m < |p| && FedBy(key, res, p[m].lhs)
      ensures Present(key, p[m], res)
    {
      var b :| 0 <= b < |res| && Feeds(key, res[b], p[m].lhs);
      var o := if key(res[b].rhs[0]) == key(p[m].lhs) then res[b].rhs[0] else res[b].rhs[1];
      assert Listed(key, fin, o);
      var k :| 0 <= k < |fin| && key(fin[k]) == key(o);
    }
  }

  /** The result is empty exactly when no input rule targets the initial symbol; otherwise it starts with such a rule. */
  lemma {:induction false} ReachableEmptyIff(key: Symbol -> string, p: seq<Rule>, initial: Symbol)
    requires WellFormed(p)
    ensures Reachable(key, p, initial) == [] <==> forall m :: 0 <= m < |p| ==> key(p[m].lhs) != key(initial)
    ensures Reachable(key, p, initial) != [] ==> key(Reachable(key, p, initial)[0].lhs) == key(initial)
  {
    var res := Reachable(key, p, initial);
    ReachableSound(key, p, initial);
    ReachableComplete(key, p, initial);
    if res != [] {
      assert GroundedAt(key, res, 0, initial);
      assert res[0] in p;
    }
  }

  // ---------------------------------------------------------------------
  // A second pruning changes nothing.
  // ---------------------------------------------------------------------

  /** The worklist after keeping the rules `rs` one after another. */
  function GrowAll(key: Symbol -> string, nont: seq<Symbol>, rs: seq<Rule>): seq<Symbol>
    requires WellFormed(rs)
    decreases |rs|
  {
    if rs == [] then nont
    else
      var front := rs[..|rs| - 1];
      assert forall r :: r in front ==> r in rs;
      Grow(key, GrowAll(key, nont, front), rs[|rs| - 1])
  }

  /** The rules a scan adds are rules of the grammar, so they are well formed. */
  lemma {:induction false} KeptWellFormed(key: Symbol -> string, p: seq<Rule>, j: nat, t: string, kept: seq<Rule>)
    requires WellFormed(p) && j <= |p|
    ensures WellFormed(Keep(key, p, j, t, kept)[|kept|..])
  {
    var res := Keep(key, p, j, t, kept);
    forall r | r in res[|kept|..]
      ensures WellFormedRule(r)
    {
      var a :| 0 <= a < |res[|kept|..]| && res[|kept|..][a] == r;
      assert res[|kept| + a] in p;
    }
  }

  /** A scan queues the outputs of exactly the rules it keeps, in the order it keeps them. */
  lemma {:induction false} QueueIsGrowAll(key: Symbol -> string, p: seq<Rule>, j: nat, t: string, kept: seq<Rule>, nont: seq<Symbol>)
    requires WellFormed(p) && j <= |p|
    ensures WellFormed(Keep(key, p, j, t, kept)[|kept|..])
    ensures Queue(key, p, j, t, kept, nont) == GrowAll(key, nont, Keep(key, p, j, t, kept)[|kept|..])
    decreases j
  {
    KeptWellFormed(key, p, j, t, kept);
    if j > 0 {
      QueueIsGrowAll(key, p, j - 1, t, kept, nont);
      var res := Keep(key, p, j, t, kept);
      var pre := Keep(key, p, j - 1, t, kept);
      if key(p[j - 1].lhs) == t && !Present(key, p[j - 1], pre) {
        assert res == pre + [p[j - 1]];
        assert res[|kept|..][..|res[|kept|..]| - 1] == pre[|kept|..];
      }
    }
  }

  /** Some queued symbol with index in [lo, hi) renders as the target of `r`. */
  predicate TargetAmong(key: Symbol -> string, r: Rule, nont: seq<Symbol>, lo: nat, hi: nat)
    requires hi <= |nont|
  {
    exists k :: lo <= k < hi && key(r.lhs) == key(nont[k])
  }

  /**
   * The walk from entry `i` extends `kept`, and every rule it adds targets a
   * symbol queued at index `i` or later of the worklist `fin` it ends on.
   */
  lemma {:induction false} RunTail(key: Symbol -> string, p: seq<Rule>, nont: seq<Symbol>, i: nat, kept: seq<Rule>)
    returns (fin: seq<Symbol>)
    requires WellFormed(p) && WorklistOk(key, p, nont) && i <= |nont|
    ensures |Run(key, p, nont, i, kept)| >= |kept| && Run(key, p, nont, i, kept)[..|kept|] == kept
    ensures |fin| >= |nont| && fin[..|nont|] == nont && WorklistOk(key, p, fin)
    ensures forall a :: |kept| <= a < |Run(key, p, nont, i, kept)| ==>
      TargetAmong(key, Run(key, p, nont, i, kept)[a], fin, i, |fin|)
    decreases |Universe(key, p, nont[0])| - i
  {
    var res := Run(key, p, nont, i, kept);
    if i == |nont| {
      fin := nont;
    } else {
      var t := key(nont[i]);
      var more := Keep(key, p, |p|, t, kept);
      var q := Queue(key, p, |p|, t, kept, nont);
      QueueExtends(key, p, |p|, t, kept, nont);
      WorklistBound(key, p, nont);
      fin := RunTail(key, p, q, i + 1, more);
      assert res == Run(key, p, q, i + 1, more);
      assert res[..|kept|] == more[..|kept|];
      assert fin[..|nont|] == q[..|nont|];
      forall a | |kept| <= a < |res|
        ensures TargetAmong(key, res[a], fin, i, |fin|)
      {
        if a < |more| {
          assert res[a] == more[a] && fin[i] == nont[i];
        } else {
          assert TargetAmong(key, res[a], fin, i + 1, |fin|);
        }
      }
    }
  }

  /** In a list without two equal rules, no rule is present before it. */
  lemma {:induction false} NoDupFresh(key: Symbol -> string, rs: seq<Rule>, j: nat)
    requires NoDup(key, rs) && 0 < j <= |rs|
    ensures !Present(key, rs[j - 1], rs[..j - 1])
  {
  }

  /**
   * Scanning a list whose rules with target `t` are exactly the block
   * [lo, hi), with no two equal rules, keeps that block after the prefix.
   */
  lemma {:induction false} ScanAgain(key: Symbol -> string, rs: seq<Rule>, j: nat, t: string, lo: nat, hi: nat)
    requires j <= |rs| && lo <= hi <= |rs| && NoDup(key, rs)
    requires forall a :: 0 <= a < |rs| ==> (key(rs[a].lhs) == t <==> lo <= a < hi)
    ensures Keep(key, rs, j, t, rs[..lo]) == rs[..if j < lo then lo else if j > hi then hi else j]
    decreases j
  {
    if j > 0 {
      ScanAgain(key, rs, j - 1, t, lo, hi);
      if lo < j <= hi {
        NoDupFresh(key, rs, j);
        Counting.TakeSnoc(rs, j);
      }
    }
  }

  lemma {:induction false} KeySetPrefix(key: Symbol -> string, nont: seq<Symbol>, more: seq<Symbol>)
    requires |more| >= |nont| && more[..|nont|] == nont
    ensures KeySet(key, nont) <= KeySet(key, more)
  {
    forall x | x in KeySet(key, nont)
      ensures x in KeySet(key, more)
    {
      var k :| 0 <= k < |nont| && key(nont[k]) == x;
      assert more[k] == nont[k];
    }
  }

  /** A worklist whose entries after the first are outputs of rules of `rs` is a worklist over `rs`. */
  lemma {:induction false} SourcedUniverse(key: Symbol -> string, rs: seq<Rule>, nont: seq<Symbol>)
    requires |nont| >= 1 && DistinctKeys(key, nont) && Sourced(key, nont, rs)
    ensures WorklistOk(key, rs, nont)
  {
    forall x | x in KeySet(key, nont)
      ensures x in Universe(key, rs, nont[0])
    {
      var k :| 0 <= k < |nont| && key(nont[k]) == x;
      if k > 0 {
        assert FedBy(key, rs, nont[k]);
        var b :| 0 <= b < |rs| && Feeds(key, rs[b], nont[k]);
        assert rs[b] in rs;
        if key(rs[b].rhs[0]) == x {
          assert key(rs[b].rhs[0]) in Universe(key, rs, nont[0]);
        } else {
          assert key(rs[b].rhs[1]) in Universe(key, rs, nont[0]);
        }
      }
    }
  }

  /** In the final result, the rules with the target of entry `i` are exactly those its scan kept. */
  lemma {:induction false} BlockPartition(key: Symbol -> string, res: seq<Rule>, kept: seq<Rule>, more: seq<Rule>,
                       nont: seq<Symbol>, i: nat, fin: seq<Symbol>)
    requires i < |nont| <= |fin| && fin[..|nont|] == nont && DistinctKeys(key, fin)
    requires |kept| <= |more| <= |res| && res[..|more|] == more && more[..|kept|] == kept
    requires forall a :: 0 <= a < |kept| ==> TargetAmong(key, kept[a], nont, 0, i)
    requires forall a :: |kept| <= a < |more| ==> key(more[a].lhs) == key(nont[i])
    requires forall a :: |more| <= a < |res| ==> TargetAmong(key, res[a], fin, i + 1, |fin|)
    ensures forall a :: 0 <= a < |res| ==> (key(res[a].lhs) == key(nont[i]) <==> |kept| <= a < |more|)
  {
    forall a | 0 <= a < |res|
      ensures key(res[a].lhs) == key(nont[i]) <==> |kept| <= a < |more|
    {
      assert fin[i] == nont[i];
      if a < |kept| {
        assert TargetAmong(key, kept[a], nont, 0, i);
        var k :| 0 <= k < i && key(kept[a].lhs) == key(nont[k]);
        assert res[a] == more[a] == kept[a] && fin[k] == nont[k];
      } else if a < |more| {
        assert res[a] == more[a];
      } else {
        assert TargetAmong(key, res[a], fin, i + 1, |fin|);
        var k :| i + 1 <= k < |fin| && key(res[a].lhs) == key(fin[k]);
      }
    }
  }

  /**
   * The rules the scan for entry `i` keeps start the final result, and every
   * later rule targets a symbol queued after entry `i`.
   */
  lemma {:induction false} RunShape(key: Symbol -> string, p: seq<Rule>, initial: Symbol, nont: seq<Symbol>, i: nat, kept: seq<Rule>)
    returns (fin: seq<Symbol>)
    requires KeptOk(key, p, initial, nont, kept) && i < |nont|
    ensures var res, more := Run(key, p, nont, i, kept), Keep(key, p, |p|, key(nont[i]), kept);
      |more| <= |res| && res[..|more|] == more &&
      |nont| <= |fin| && fin[..|nont|] == nont && DistinctKeys(key, fin) &&
      forall a :: |more| <= a < |res| ==> TargetAmong(key, res[a], fin, i + 1, |fin|)
  {
    var t := key(nont[i]);
    var more := Keep(key, p, |p|, t, kept);
    var q := Queue(key, p, |p|, t, kept, nont);
    ScanKeptOk(key, p, initial, nont, i, kept);
    WorklistBound(key, p, nont);
    assert Run(key, p, nont, i, kept) == Run(key, p, q, i + 1, more);
    fin := RunTail(key, p, q, i + 1, more);
    Counting.PrefixOfPrefix(nont, q, fin);
  }

  /** The final result is well formed and holds no two equal rules. */
  lemma {:induction false} RunSound(key: Symbol -> string, p: seq<Rule>, initial: Symbol, nont: seq<Symbol>, i: nat, kept: seq<Rule>)
    requires KeptOk(key, p, initial, nont, kept) && i <= |nont| && Done(key, p, nont, i, kept)
    ensures WellFormed(Run(key, p, nont, i, kept)) && NoDup(key, Run(key, p, nont, i, kept))
  {
    var fin := RunFacts(key, p, initial, nont, i, kept);
  }

  /**
   * In the final result, the rules the scan for entry `i` kept form one block
   * after the rules kept before it, and no other rule has that target.
   */
  lemma {:induction false} ResultBlock(key: Symbol -> string, p: seq<Rule>, initial: Symbol, nont: seq<Symbol>, i: nat, kept: seq<Rule>)
    requires KeptOk(key, p, initial, nont, kept) && i < |nont|
    requires forall a :: 0 <= a < |kept| ==> TargetAmong(key, kept[a], nont, 0, i)
    ensures var res, more := Run(key, p, nont, i, kept), Keep(key, p, |p|, key(nont[i]), kept);
      |kept| <= |more| <= |res| && res[..|more|] == more && res[..|kept|] == kept &&
      forall a :: 0 <= a < |res| ==> (key(res[a].lhs) == key(nont[i]) <==> |kept| <= a < |more|)
  {
    var res := Run(key, p, nont, i, kept);
    var more := Keep(key, p, |p|, key(nont[i]), kept);
    var fin := RunShape(key, p, initial, nont, i, kept);
    Counting.PrefixOfPrefix(kept, more, res);
    BlockPartition(key, res, kept, more, nont, i, fin);
  }

  /**
   * Scanning the final result for worklist entry `i` keeps and queues exactly
   * what scanning the input did.
   */
  lemma {:induction false} ScanResultAgain(key: Symbol -> string, p: seq<Rule>, initial: Symbol, nont: seq<Symbol>, i: nat, kept: seq<Rule>)
    requires KeptOk(key, p, initial, nont, kept) && i < |nont| && Done(key, p, nont, i, kept)
    requires forall a :: 0 <= a < |kept| ==> TargetAmong(key, kept[a], nont, 0, i)
    ensures WellFormed(Run(key, p, nont, i, kept))
    ensures Keep(key, Run(key, p, nont, i, kept), |Run(key, p, nont, i, kept)|, key(nont[i]), kept) ==
      Keep(key, p, |p|, key(nont[i]), kept)
    ensures Queue(key, Run(key, p, nont, i, kept), |Run(key, p, nont, i, kept)|, key(nont[i]), kept, nont) ==
      Queue(key, p, |p|, key(nont[i]), kept, nont)
  {
    var res := Run(key, p, nont, i, kept);
    var t := key(nont[i]);
    var more := Keep(key, p, |p|, t, kept);
    RunSound(key, p, initial, nont, i, kept);
    ResultBlock(key, p, initial, nont, i, kept);
    ScanAgain(key, res, |res|, t, |kept|, |more|);
    QueueIsGrowAll(key, res, |res|, t, kept, nont);
    QueueIsGrowAll(key, p, |p|, t, kept, nont);
  }

  /** After the scan for entry `i`, every kept rule targets one of the first `i + 1` queued symbols. */
  lemma {:induction false} NextTargets(key: Symbol -> string, nont: seq<Symbol>, i: nat, kept: seq<Rule>, more: seq<Rule>, q: seq<Symbol>)
    requires i < |nont| <= |q| && q[..|nont|] == nont
    requires |kept| <= |more| && more[..|kept|] == kept
    requires forall a :: 0 <= a < |kept| ==> TargetAmong(key, kept[a], nont, 0, i)
    requires forall a :: |kept| <= a < |more| ==> key(more[a].lhs) == key(nont[i])
    ensures forall a :: 0 <= a < |more| ==> TargetAmong(key, more[a], q, 0, i + 1)
  {
    forall a | 0 <= a < |more|
      ensures TargetAmong(key, more[a], q, 0, i + 1)
    {
      if a < |kept| {
        assert TargetAmong(key, kept[a], nont, 0, i);
        var k :| 0 <= k < i && key(kept[a].lhs) == key(nont[k]);
        assert more[a] == kept[a] && q[k] == nont[k];
      } else {
        assert q[i] == nont[i];
      }
    }
  }

  /** Replaying the walk from entry `i` on its own result gives that result back. */
  lemma {:induction false} RunAgain(key: Symbol -> string, p: seq<Rule>, initial: Symbol, nont: seq<Symbol>, i: nat, kept: seq<Rule>)
    requires KeptOk(key, p, initial, nont, kept) && i <= |nont| && Done(key, p, nont, i, kept)
    requires forall a :: 0 <= a < |kept| ==> TargetAmong(key, kept[a], nont, 0, i)
    ensures WellFormed(Run(key, p, nont, i, kept)) && WorklistOk(key, Run(key, p, nont, i, kept), nont)
    ensures Run(key, Run(key, p, nont, i, kept), nont, i, kept) == Run(key, p, nont, i, kept)
    decreases |Universe(key, p, nont[0])| - i
  {
    var res := Run(key, p, nont, i, kept);
    if i == |nont| {
      assert res == kept;
      SourcedUniverse(key, kept, nont);
    } else {
      var t := key(nont[i]);
      var more := Keep(key, p, |p|, t, kept);
      var q := Queue(key, p, |p|, t, kept, nont);
      ScanKeptOk(key, p, initial, nont, i, kept);
      NextDone(key, p, nont, i, kept);
      WorklistBound(key, p, nont);
      assert res == Run(key, p, q, i + 1, more);
      NextTargets(key, nont, i, kept, more, q);
      RunAgain(key, p, initial, q, i + 1, more);
      KeySetPrefix(key, nont, q);
      ScanResultAgain(key, p, initial, nont, i, kept);
      assert Run(key, res, nont, i, kept) == Run(key, res, q, i + 1, more);
    }
  }

  /** Idempotence: pruning the result again from the same initial symbol gives it back unchanged. */
  lemma {:induction false} ReachableIdempotent(key: Symbol -> string, p: seq<Rule>, initial: Symbol)
    requires WellFormed(p)
    ensures WellFormed(Reachable(key, p, initial))
    ensures Reachable(key, Reachable(key, p, initial), initial) == Reachable(key, p, initial)
  {
    InitialWorklistOk(key, p, initial);
    RunAgain(key, p, initial, [initial], 0, []);
  }
}
