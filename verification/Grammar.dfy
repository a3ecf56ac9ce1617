/** Grammars of the parser generator, and derivations. */
module Grammar {
  /** `Multi` is a terminal written as a choice between several. */
  datatype Symbol = Terminal(token: nat) | Nonterminal(index: nat) | Multi(tokens: seq<nat>)

  datatype Rule = Rule(lhs: nat, rhs: seq<Symbol>)

  type Grammar = seq<Rule>

  predicate SymbolOk(s: Symbol, nonterminals: nat, terminals: nat) {
    match s
    case Terminal(t) => t < terminals
    case Nonterminal(a) => a < nonterminals
    case Multi(ts) => forall k :: 0 <= k < |ts| ==> ts[k] < terminals
  }

  predicate GrammarOk(g: Grammar, nonterminals: nat, terminals: nat) {
    forall r :: 0 <= r < |g| ==>
      g[r].lhs < nonterminals
      && forall i :: 0 <= i < |g[r].rhs| ==> SymbolOk(g[r].rhs[i], nonterminals, terminals)
  }

  type Form = seq<Symbol>

  /** One step of a derivation: the symbol at position i is replaced, a nonterminal by
      the right side of a rule, a choice by one of its tokens. */
  ghost predicate IsStep(g: Grammar, x: Form, z: Form) {
    exists i: nat, r: nat, k: nat :: i < |x| && StepWith(g, x, i, r, k, z)
  }

  /** The step by rule r or by choice k. */
  predicate StepWith(g: Grammar, x: Form, i: nat, r: nat, k: nat, z: Form)
    requires i < |x|
  {
    match x[i]
    case Terminal(_) => false
    case Nonterminal(a) => r < |g| && g[r].lhs == a && z == x[..i] + g[r].rhs + x[i + 1..]
    case Multi(ts) => k < |ts| && z == x[..i] + [Terminal(ts[k])] + x[i + 1..]
  }

  ghost predicate DerivesIn(g: Grammar, n: nat, x: Form, y: Form) {
    if n == 0 then x == y else exists z :: IsStep(g, x, z) && DerivesIn(g, n - 1, z, y)
  }

  ghost predicate Derives(g: Grammar, x: Form, y: Form) {
    exists n: nat :: DerivesIn(g, n, x, y)
  }

  /** A nonterminal that derives the empty string. */
  ghost predicate Nullable(g: Grammar, a: nat) { Derives(g, [Nonterminal(a)], []) }

  /** A token that can begin a form derived from the nonterminal. */
  ghost predicate Begins(g: Grammar, a: nat, t: nat) {
    exists rest: Form :: Derives(g, [Nonterminal(a)], [Terminal(t)] + rest)
  }

  lemma {:induction false} DerivesInAdd(g: Grammar, m: nat, n: nat, x: Form, y: Form, z: Form)
    requires DerivesIn(g, m, x, y) && DerivesIn(g, n, y, z)
    ensures DerivesIn(g, m + n, x, z)
  {
    hide IsStep;
    if m > 0 {
      var w :| IsStep(g, x, w) && DerivesIn(g, m - 1, w, y);
      DerivesInAdd(g, m - 1, n, w, y, z);
    }
  }

  lemma DerivesTrans(g: Grammar, x: Form, y: Form, z: Form)
    requires Derives(g, x, y) && Derives(g, y, z)
    ensures Derives(g, x, z)
  {
    var m: nat :| DerivesIn(g, m, x, y);
    var n: nat :| DerivesIn(g, n, y, z);
    DerivesInAdd(g, m, n, x, y, z);
  }

  lemma DerivesRefl(g: Grammar, x: Form)
    ensures Derives(g, x, x)
  {
    assert DerivesIn(g, 0, x, x);
  }

  lemma StepDerives(g: Grammar, x: Form, z: Form)
    requires IsStep(g, x, z)
    ensures Derives(g, x, z)
  {
    assert DerivesIn(g, 0, z, z);
    assert DerivesIn(g, 1, x, z);
  }

  lemma StepIn(g: Grammar, before: Form, x: Form, z: Form, after: Form)
    requires IsStep(g, x, z)
    ensures IsStep(g, before + x + after, before + z + after)
  {
    var i: nat, r: nat, k: nat :| i < |x| && StepWith(g, x, i, r, k, z);
    Around(before, x, after, i);
    match x[i] {
      case Nonterminal(_) => Replaced(before, x, after, i, g[r].rhs);
      case Multi(ts) => Replaced(before, x, after, i, [Terminal(ts[k])]);
    }
    assert StepWith(g, before + x + after, |before| + i, r, k, before + z + after);
  }

  lemma Around(before: Form, x: Form, after: Form, i: nat)
    requires i < |x|
    ensures (before + x + after)[|before| + i] == x[i]
  {
  }

  lemma Replaced(before: Form, x: Form, after: Form, i: nat, y: Form)
    requires i < |x|
    ensures var (w, j) := (before + x + after, |before| + i);
      before + (x[..i] + y + x[i + 1..]) + after == w[..j] + y + w[j + 1..]
  {
  }

  lemma {:induction false} DerivesInContext(g: Grammar, n: nat, before: Form, x: Form, y: Form, after: Form)
    requires DerivesIn(g, n, x, y)
    ensures DerivesIn(g, n, before + x + after, before + y + after)
  {
    hide IsStep;
    if n > 0 {
      var z :| IsStep(g, x, z) && DerivesIn(g, n - 1, z, y);
      StepIn(g, before, x, z, after);
      DerivesInContext(g, n - 1, before, z, y, after);
    }
  }

  lemma DerivesContext(g: Grammar, before: Form, x: Form, y: Form, after: Form)
    requires Derives(g, x, y)
    ensures Derives(g, before + x + after, before + y + after)
  {
    var n: nat :| DerivesIn(g, n, x, y);
    DerivesInContext(g, n, before, x, y, after);
  }

  lemma RuleDerives(g: Grammar, r: nat)
    requires r < |g|
    ensures Derives(g, [Nonterminal(g[r].lhs)], g[r].rhs)
  {
    var x := [Nonterminal(g[r].lhs)];
    assert x[..0] + g[r].rhs + x[1..] == g[r].rhs;
    assert StepWith(g, x, 0, r, 0, g[r].rhs);
    StepDerives(g, x, g[r].rhs);
  }

  lemma ChoiceDerives(g: Grammar, ts: seq<nat>, k: nat)
    requires k < |ts|
    ensures Derives(g, [Multi(ts)], [Terminal(ts[k])])
  {
    var x := [Multi(ts)];
    assert x[..0] + [Terminal(ts[k])] + x[1..] == [Terminal(ts[k])];
    assert StepWith(g, x, 0, 0, k, [Terminal(ts[k])]);
    StepDerives(g, x, [Terminal(ts[k])]);
  }
}
