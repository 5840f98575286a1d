/** Stock optional-value wrapper, used for the error paths of the pipeline. */
module Wrappers {
  datatype Option<T> = None | Some(value: T)
}

/** Cardinality and prefix facts about finite collections, used by the proofs. */
module Counting {

  lemma {:induction false} SubsetCard<T>(a: set<T>, b: set<T>)
    requires a <= b
    ensures |a| <= |b|
    decreases a
  {
    if a != {} {
      var x :| x in a;
      SubsetCard(a - {x}, b - {x});
    }
  }

  /** A prefix of a prefix is a prefix. */
  lemma {:induction false} PrefixOfPrefix<T>(a: seq<T>, b: seq<T>, c: seq<T>)
    requires |a| <= |b| && b[..|a|] == a && |b| <= |c| && c[..|b|] == b
    ensures |a| <= |c| && c[..|a|] == a
  {
    assert c[..|a|] == c[..|b|][..|a|];
  }

  lemma {:induction false} PrefixContains<T>(s: seq<T>, all: seq<T>, x: T)
    requires |s| <= |all| && all[..|s|] == s && x in s
    ensures x in all
  {
    var k :| 0 <= k < |s| && s[k] == x;
    assert all[k] == all[..|s|][k];
  }

  lemma {:induction false} InLeft<T>(x: T, a: seq<T>, b: seq<T>)
    requires x in a
    ensures x in a + b
  {
  }

  lemma {:induction false} TakeSnoc<T>(s: seq<T>, j: nat)
    requires 0 < j <= |s|
    ensures s[..j] == s[..j - 1] + [s[j - 1]]
  {
  }
}

/**
 * Grammar symbols and rules of a (weighted) context-free grammar.
 *
 * A symbol is a terminal word or a nonterminal category. A nonterminal is
 * either ungrounded (its span fields hold the sentinel -1, as written in a
 * source grammar) or grounded to the half-open word span [s1, s2) of an input
 * sentence. Two notions of sameness coexist: `SameName` (the symbol `==`,
 * names only) and equality of the rendered string `Str` (name and span), which
 * is what rule identity and reachability use.
 */
module Grammar {

  datatype Symbol = T(name: string) | NT(name: string, s1: int, s2: int)

  /** The span sentinel of an ungrounded symbol. */
  const Ungrounded: int := -1

  /** An ungrounded nonterminal, as a source grammar writes it. */
  function Category(name: string): Symbol {
    NT(name, Ungrounded, Ungrounded)
  }

  /** Symbol equality `==`: names only, whatever the kind or the span. */
  predicate SameName(a: Symbol, b: Symbol) {
    a.name == b.name
  }

  /** Start and end of a symbol's span; a terminal never carries one. */
  function Start(s: Symbol): int {
    if s.NT? then s.s1 else Ungrounded
  }

  function End(s: Symbol): int {
    if s.NT? then s.s2 else Ungrounded
  }

  function DigitChar(d: nat): (c: char)
    requires d < 10
    ensures '0' <= c <= '9'
  {
    ('0' as int + d) as char
  }

  /** Decimal rendering of a natural number, as Python's `str`. */
  function NatToString(n: nat): string
    decreases n
  {
    if n < 10 then [DigitChar(n)] else NatToString(n / 10) + [DigitChar(n % 10)]
  }

  /** The decimal rendering is a non-empty run of digits, of length one exactly below ten. */
  lemma {:induction false} NatToStringShape(n: nat)
    ensures |NatToString(n)| >= 1
    ensures forall k :: 0 <= k < |NatToString(n)| ==> '0' <= NatToString(n)[k] <= '9'
    ensures n >= 10 <==> |NatToString(n)| >= 2
    decreases n
  {
    if n >= 10 {
      NatToStringShape(n / 10);
    }
  }

  function IntToString(i: int): string {
    if i < 0 then "-" + NatToString(-i) else NatToString(i)
  }

  /** The rendered form: `name` for a terminal or an ungrounded nonterminal, `name_s1-s2` otherwise. */
  function Str(s: Symbol): string {
    match s
    case T(name) => name
    case NT(name, s1, s2) =>
      if s1 == Ungrounded then name else name + "_" + IntToString(s1) + "-" + IntToString(s2)
  }

  /** Two output lists render alike, position by position. */
  predicate SameOutputs(key: Symbol -> string, a: seq<Symbol>, b: seq<Symbol>) {
    |a| == |b| && forall k :: 0 <= k < |a| ==> key(a[k]) == key(b[k])
  }

  predicate NoUnderscore(name: string) {
    forall k :: 0 <= k < |name| ==> name[k] != '_'
  }

  /** A nonterminal whose span is either wholly the sentinel or wholly word indices. */
  predicate WellSpanned(s: Symbol) {
    s.NT? && ((s.s1 == Ungrounded && s.s2 == Ungrounded) || (s.s1 >= 0 && s.s2 >= 0))
  }

  lemma {:induction false} NatToStringInjective(a: nat, b: nat)
    requires NatToString(a) == NatToString(b)
    ensures a == b
    decreases a
  {
    var sa := NatToString(a);
    NatToStringShape(a);
    NatToStringShape(b);
    if a >= 10 && b >= 10 {
      assert sa[|sa| - 1] == DigitChar(a % 10) == DigitChar(b % 10);
      assert NatToString(a / 10) == sa[..|sa| - 1] == NatToString(b / 10);
      NatToStringInjective(a / 10, b / 10);
    } else {
      assert sa[0] == DigitChar(a) == DigitChar(b);
    }
  }

  lemma {:induction false} SeparatorAt(n: string, c: char, r: string)
    ensures |n + [c] + r| > |n| && (n + [c] + r)[|n|] == c
  {
  }

  lemma {:induction false} GroundedRendering(y: Symbol)
    requires y.NT? && y.s1 != Ungrounded
    ensures |Str(y)| > |y.name| && Str(y)[|y.name|] == '_'
  {
    var c := y.name + "_";
    var d := c + IntToString(y.s1);
    var e := d + "-";
    assert Str(y) == e + IntToString(y.s2);
    assert c[|y.name|] == '_';
    assert d[|y.name|] == '_';
    assert e[|y.name|] == '_';
  }

  /**
   * The rendering starts with the symbol's name, and it is the bare name
   * exactly for a terminal or an ungrounded nonterminal.
   */
  lemma {:induction false} StrBareName(s: Symbol)
    ensures |Str(s)| >= |s.name| && Str(s)[..|s.name|] == s.name
    ensures Str(s) == s.name <==> s.T? || s.s1 == Ungrounded
  {
    if s.NT? && s.s1 != Ungrounded {
      GroundedRendering(s);
      var rest := "_" + IntToString(s.s1) + "-" + IntToString(s.s2);
      assert Str(s) == s.name + rest;
      assert (s.name + rest)[..|s.name|] == s.name;
    }
  }

  lemma {:induction false} SplitAtSeparator(n1: string, r1: string, n2: string, r2: string, c: char)
    requires forall k :: 0 <= k < |n1| ==> n1[k] != c
    requires forall k :: 0 <= k < |n2| ==> n2[k] != c
    requires n1 + [c] + r1 == n2 + [c] + r2
    ensures n1 == n2 && r1 == r2
  {
    var s := n1 + [c] + r1;
    if |n1| < |n2| {
      SeparatorAt(n1, c, r1);
      assert false;
    } else if |n2| < |n1| {
      SeparatorAt(n2, c, r2);
      assert false;
    }
    assert n1 == s[..|n1|] && n2 == s[..|n2|];
    assert r1 == s[|n1| + 1..] && r2 == s[|n2| + 1..];
  }

  /**
   * Rendering is faithful on nonterminals whose names hold no underscore and
   * whose spans are well formed: two such symbols render alike exactly when
   * they are the same symbol.
   */
  lemma {:induction false} StrInjective(x: Symbol, y: Symbol)
    requires WellSpanned(x) && WellSpanned(y)
    requires NoUnderscore(x.name) && NoUnderscore(y.name)
    ensures Str(x) == Str(y) <==> x == y
  {
    if Str(x) == Str(y) {
      if x.s1 == Ungrounded && y.s1 == Ungrounded {
      } else if x.s1 == Ungrounded {
        GroundedRendering(y);
        assert false;
      } else if y.s1 == Ungrounded {
        GroundedRendering(x);
        assert false;
      } else {
        var a1, b1 := NatToString(x.s1), NatToString(x.s2);
        var a2, b2 := NatToString(y.s1), NatToString(y.s2);
        assert Str(x) == x.name + ['_'] + (a1 + ['-'] + b1);
        assert Str(y) == y.name + ['_'] + (a2 + ['-'] + b2);
        NatToStringShape(x.s1);
        NatToStringShape(y.s1);
        SplitAtSeparator(x.name, a1 + ['-'] + b1, y.name, a2 + ['-'] + b2, '_');
        SplitAtSeparator(a1, b1, a2, b2, '-');
        NatToStringInjective(x.s1, y.s1);
        NatToStringInjective(x.s2, y.s2);
      }
    }
  }

  /**
   * Identity by rendering refines the name-only symbol `==`: well-spanned
   * nonterminals with clean names that render alike also compare `==`, while
   * `==` still holds between differently grounded instances of one category.
   */
  lemma {:induction false} RenderedIdentityRefinesName(x: Symbol, y: Symbol)
    requires WellSpanned(x) && WellSpanned(y)
    requires NoUnderscore(x.name) && NoUnderscore(y.name)
    ensures Str(x) == Str(y) ==> SameName(x, y)
    ensures x.name == y.name && (x.s1 != y.s1 || x.s2 != y.s2) ==> SameName(x, y) && Str(x) != Str(y)
  {
    StrInjective(x, y);
  }

  /** A rule `lhs -> rhs` with weight `v`. */
  datatype Rule = Rule(lhs: Symbol, v: real, rhs: seq<Symbol>)

  /** `Rule.is_terminal`: every output is a terminal (vacuously so for no output). */
  predicate IsTerminal(r: Rule) {
    forall o :: o in r.rhs ==> o.T?
  }

  predicate IsBinary(r: Rule) {
    |r.rhs| == 2 && r.rhs[0].NT? && r.rhs[1].NT?
  }

  /** The only rule shapes the pipeline handles: `A -> "w"` and `A -> B C`. */
  predicate WellFormedRule(r: Rule) {
    r.lhs.NT? && ((|r.rhs| == 1 && r.rhs[0].T?) || IsBinary(r))
  }

  /** On the handled shapes, `is_terminal` holds exactly for the rules that are not binary. */
  lemma {:induction false} TerminalIffNotBinary(r: Rule)
    requires WellFormedRule(r)
    ensures IsTerminal(r) <==> !IsBinary(r)
  {
    if IsBinary(r) {
      assert r.rhs[0] in r.rhs;
    }
  }

  predicate WellFormed(g: seq<Rule>) {
    forall r :: r in g ==> WellFormedRule(r)
  }

  /**
   * `Rule.__eq__`, generalised to outputs of any length: the rendered targets
   * agree and the rendered outputs agree position by position. The weight
   * plays no part.
   */
  predicate RuleEq(key: Symbol -> string, a: Rule, b: Rule) {
    key(a.lhs) == key(b.lhs) && SameOutputs(key, a.rhs, b.rhs)
  }

  /** `r in rs` for a list of rules, which compares by `Rule.__eq__`. */
  predicate Present(key: Symbol -> string, r: Rule, rs: seq<Rule>) {
    exists k :: 0 <= k < |rs| && RuleEq(key, rs[k], r)
  }

  /**
   * On binary rules the generalised equality is exactly the source's
   * three-way comparison of rendered target, first and second output.
   */
  lemma {:induction false} RuleEqOnBinary(key: Symbol -> string, a: Rule, b: Rule)
    requires |a.rhs| == 2 && |b.rhs| == 2
    ensures RuleEq(key, a, b) <==>
      key(a.lhs) == key(b.lhs) && key(a.rhs[0]) == key(b.rhs[0]) && key(a.rhs[1]) == key(b.rhs[1])
  {
  }

  /** `str(rule)` equality: weight, rendered target and rendered outputs all agree. */
  predicate SameRendering(a: Rule, b: Rule) {
    a.v == b.v && Str(a.lhs) == Str(b.lhs) && SameOutputs(Str, a.rhs, b.rhs)
  }

  // ---------------------------------------------------------------------
  // `Rule.__str__` as a string, and what comparing two of them decides.
  // ---------------------------------------------------------------------

  /** The outputs as Python's list rendering writes them between the brackets: `a, b, …`. */
  function JoinStr(os: seq<Symbol>): string
    decreases |os|
  {
    if os == [] then "" else if |os| == 1 then Str(os[0]) else Str(os[0]) + ", " + JoinStr(os[1..])
  }

  /** `Rule.__str__`: `v, lhs => [o1, o2, …]`, with the weight rendered by `wstr`. */
  function RuleStr(wstr: real -> string, r: Rule): string {
    wstr(r.v) + ", " + Str(r.lhs) + " => [" + JoinStr(r.rhs) + "]"
  }

  /** A name that is not empty and holds neither of the separators `,` and `=`. */
  predicate CleanName(name: string) {
    |name| >= 1 && ',' !in name && '=' !in name
  }

  predicate CleanRule(r: Rule) {
    CleanName(r.lhs.name) && forall k :: 0 <= k < |r.rhs| ==> CleanName(r.rhs[k].name)
  }

  /** Rules that agree component-wise have the same `str`. */
  lemma {:induction false} SameRenderingStr(wstr: real -> string, a: Rule, b: Rule)
    requires SameRendering(a, b)
    ensures RuleStr(wstr, a) == RuleStr(wstr, b)
  {
    JoinStrCongruent(a.rhs, b.rhs);
  }

  lemma {:induction false} JoinStrCongruent(xs: seq<Symbol>, ys: seq<Symbol>)
    requires SameOutputs(Str, xs, ys)
    ensures JoinStr(xs) == JoinStr(ys)
    decreases |xs|
  {
    if |xs| > 1 {
      JoinStrCongruent(xs[1..], ys[1..]);
    }
  }

  /** The rendering of a symbol with a clean name is not empty and holds no `,` and no `=`. */
  lemma {:induction false} StrClean(s: Symbol)
    requires CleanName(s.name)
    ensures |Str(s)| >= 1 && ',' !in Str(s) && '=' !in Str(s)
  {
    StrBareName(s);
    assert Str(s)[0] == s.name[0];
    if s.NT? && s.s1 != Ungrounded {
      var a, b := s.s1, s.s2;
      IntToStringClean(a);
      IntToStringClean(b);
      assert Str(s) == s.name + "_" + IntToString(a) + "-" + IntToString(b);
    }
  }

  lemma {:induction false} IntToStringClean(i: int)
    ensures ',' !in IntToString(i) && '=' !in IntToString(i)
  {
    var n: nat := if i < 0 then -i else i;
    NatToStringShape(n);
    assert IntToString(i) == if i < 0 then "-" + NatToString(n) else NatToString(n);
  }

  /** Outputs with clean names whose list renderings agree agree position by position. */
  lemma {:induction false} JoinStrInjective(xs: seq<Symbol>, ys: seq<Symbol>)
    requires forall k :: 0 <= k < |xs| ==> CleanName(xs[k].name)
    requires forall k :: 0 <= k < |ys| ==> CleanName(ys[k].name)
    requires JoinStr(xs) == JoinStr(ys)
    ensures SameOutputs(Str, xs, ys)
    decreases |xs|
  {
    if xs != [] {
      StrClean(xs[0]);
    }
    if ys != [] {
      StrClean(ys[0]);
    }
    if |xs| > 1 && |ys| > 1 {
      var rx, ry := " " + JoinStr(xs[1..]), " " + JoinStr(ys[1..]);
      assert ", " == [','] + " ";
      assert JoinStr(xs) == Str(xs[0]) + [','] + rx;
      assert JoinStr(ys) == Str(ys[0]) + [','] + ry;
      SplitAtSeparator(Str(xs[0]), rx, Str(ys[0]), ry, ',');
      assert rx[1..] == JoinStr(xs[1..]) && ry[1..] == JoinStr(ys[1..]);
      JoinStrInjective(xs[1..], ys[1..]);
    } else if |xs| > 1 && |ys| == 1 {
      assert false;
    } else if |xs| == 1 && |ys| > 1 {
      assert false;
    }
  }

  /**
   * Conversely, when the two weights render without a comma and render alike
   * only if they are equal, and all names are clean, rules with the same
   * `str` agree component-wise.
   */
  lemma {:induction false} RuleStrSameRendering(wstr: real -> string, a: Rule, b: Rule)
    requires wstr(a.v) == wstr(b.v) ==> a.v == b.v
    requires ',' !in wstr(a.v) && ',' !in wstr(b.v)
    requires CleanRule(a) && CleanRule(b) && RuleStr(wstr, a) == RuleStr(wstr, b)
    ensures SameRendering(a, b)
  {
    StrClean(a.lhs);
    StrClean(b.lhs);
    RuleStrParts(wstr(a.v), Str(a.lhs), JoinStr(a.rhs), wstr(b.v), Str(b.lhs), JoinStr(b.rhs));
    JoinStrInjective(a.rhs, b.rhs);
  }

  /** The layout `w, l => [j]` can be split back when `w` holds no comma and `l` no `=`. */
  lemma {:induction false} RuleStrParts(w1: string, l1: string, j1: string, w2: string, l2: string, j2: string)
    requires ',' !in w1 && ',' !in w2 && '=' !in l1 && '=' !in l2
    requires w1 + ", " + l1 + " => [" + j1 + "]" == w2 + ", " + l2 + " => [" + j2 + "]"
    ensures w1 == w2 && l1 == l2 && j1 == j2
  {
    var ta, tb := " " + l1 + " => [" + j1 + "]", " " + l2 + " => [" + j2 + "]";
    assert ", " == [','] + " ";
    assert w1 + ", " + l1 + " => [" + j1 + "]" == w1 + [','] + ta;
    assert w2 + ", " + l2 + " => [" + j2 + "]" == w2 + [','] + tb;
    SplitAtSeparator(w1, ta, w2, tb, ',');
    var la, lb := l1 + " ", l2 + " ";
    var ua, ub := "> [" + j1 + "]", "> [" + j2 + "]";
    assert " => [" == " " + ['='] + "> [";
    assert ta[1..] == la + ['='] + ua && tb[1..] == lb + ['='] + ub;
    SplitAtSeparator(la, ua, lb, ub, '=');
    assert l1 == la[..|la| - 1] && l2 == lb[..|lb| - 1];
    assert j1 == ua[3..|ua| - 1] && j2 == ub[3..|ub| - 1];
  }
}
