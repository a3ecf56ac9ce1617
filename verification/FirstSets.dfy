/** FIRST sets: which nonterminals can vanish, and which tokens can begin them. */
module FirstSets {
  import opened Grammar
  import opened TokenSets

  type Pairs = set<(nat, nat)>

  /* ---- Forms, seen through the computed tables ---- */

  /** The symbol can vanish, by the table. */
  predicate Vanishes(lambda: set<nat>, s: Symbol) { s.Nonterminal? && s.index in lambda }

  predicate AllVanish(lambda: set<nat>, x: Form) {
    forall i :: 0 <= i < |x| ==> Vanishes(lambda, x[i])
  }

  /** The token can begin the symbol, by the table. */
  predicate StartsSymbol(first: Pairs, s: Symbol, t: nat) {
    match s
    case Terminal(e) => e == t
    case Nonterminal(a) => (a, t) in first
    case Multi(ts) => t in ts
  }

  predicate StartsAt(lambda: set<nat>, first: Pairs, x: Form, i: nat, t: nat) {
    i < |x| && AllVanish(lambda, x[..i]) && StartsSymbol(first, x[i], t)
  }

  predicate Starts(lambda: set<nat>, first: Pairs, x: Form, t: nat) {
    exists i: nat :: i < |x| && StartsAt(lambda, first, x, i, t)
  }

  /* ---- Soundness ---- */

  ghost predicate LambdaSound(g: Grammar, lambda: set<nat>) {
    forall a :: a in lambda ==> Nullable(g, a)
  }

  ghost predicate FirstSound(g: Grammar, first: Pairs) {
    forall a: nat, t: nat :: (a, t) in first ==> Begins(g, a, t)
  }

  lemma LambdaDerives(g: Grammar, lambda: set<nat>, a: nat)
    requires LambdaSound(g, lambda) && a in lambda
    ensures Derives(g, [Nonterminal(a)], [])
  {
  }

  lemma {:induction false} VanishingDerives(g: Grammar, lambda: set<nat>, x: Form, rest: Form)
    requires LambdaSound(g, lambda) && AllVanish(lambda, x)
    ensures Derives(g, x + rest, rest)
  {
    hide Derives, LambdaSound;
    if x == [] {
      assert x + rest == rest;
      DerivesRefl(g, rest);
    } else {
      var tail := x[1..] + rest;
      assert Vanishes(lambda, x[0]) && x[0] == Nonterminal(x[0].index);
      LambdaDerives(g, lambda, x[0].index);
      DerivesContext(g, [], [x[0]], [], tail);
      assert [] + [x[0]] + tail == x + rest && [] + [] + tail == tail;
      VanishingDerives(g, lambda, x[1..], rest);
      DerivesTrans(g, x + rest, tail, rest);
    }
  }

  /** A rule all of whose symbols vanish makes its left side vanish. */
  lemma LambdaStep(g: Grammar, lambda: set<nat>, r: nat)
    requires LambdaSound(g, lambda) && r < |g| && AllVanish(lambda, g[r].rhs)
    ensures LambdaSound(g, lambda + {g[r].lhs})
  {
    RuleDerives(g, r);
    VanishingDerives(g, lambda, g[r].rhs, []);
    assert g[r].rhs + [] == g[r].rhs;
    DerivesTrans(g, [Nonterminal(g[r].lhs)], g[r].rhs, []);
  }

  lemma SymbolBegins(g: Grammar, first: Pairs, s: Symbol, t: nat) returns (rest: Form)
    requires FirstSound(g, first) && StartsSymbol(first, s, t)
    ensures Derives(g, [s], [Terminal(t)] + rest)
  {
    match s
    case Terminal(_) =>
      rest := [];
      DerivesRefl(g, [s]);
      assert [Terminal(t)] + [] == [s];
    case Nonterminal(a) =>
      rest :| Derives(g, [Nonterminal(a)], [Terminal(t)] + rest);
    case Multi(ts) =>
      rest := [];
      var k :| 0 <= k < |ts| && ts[k] == t;
      ChoiceDerives(g, ts, k);
      assert [Terminal(t)] + [] == [Terminal(t)];
  }

  /** A token that can begin a rule's right side can begin its left side. */
  lemma FirstStep(g: Grammar, lambda: set<nat>, first: Pairs, r: nat, i: nat, t: nat)
    requires LambdaSound(g, lambda) && FirstSound(g, first) && r < |g|
    requires StartsAt(lambda, first, g[r].rhs, i, t)
    ensures Begins(g, g[r].lhs, t)
  {
    hide Derives, LambdaSound, FirstSound;
    var x := g[r].rhs;
    RuleDerives(g, r);
    assert x == x[..i] + ([x[i]] + x[i + 1..]);
    VanishingDerives(g, lambda, x[..i], [x[i]] + x[i + 1..]);
    DerivesTrans(g, [Nonterminal(g[r].lhs)], x, [x[i]] + x[i + 1..]);
    var rest := SymbolBegins(g, first, x[i], t);
    var tail := FirstInContext(g, x[i], t, rest, x[i + 1..]);
    DerivesTrans(g, [Nonterminal(g[r].lhs)], [x[i]] + x[i + 1..], [Terminal(t)] + tail);
  }

  lemma FirstInContext(g: Grammar, s: Symbol, t: nat, rest: Form, after: Form) returns (tail: Form)
    requires Derives(g, [s], [Terminal(t)] + rest)
    ensures Derives(g, [s] + after, [Terminal(t)] + tail)
  {
    hide Derives;
    tail := rest + after;
    DerivesContext(g, [], [s], [Terminal(t)] + rest, after);
    assert [] + [s] + after == [s] + after;
    assert [] + ([Terminal(t)] + rest) + after == [Terminal(t)] + tail;
  }

  /* ---- Completeness ---- */

  predicate LambdaClosed(g: Grammar, lambda: set<nat>) {
    forall r :: 0 <= r < |g| && AllVanish(lambda, g[r].rhs) ==> g[r].lhs in lambda
  }

  ghost predicate FirstClosed(g: Grammar, lambda: set<nat>, first: Pairs) {
    forall r: nat, i: nat, t: nat :: r < |g| && StartsAt(lambda, first, g[r].rhs, i, t) ==>
      (g[r].lhs, t) in first
  }

  lemma VanishSplit(lambda: set<nat>, x: Form, y: Form)
    ensures AllVanish(lambda, x + y) <==> AllVanish(lambda, x) && AllVanish(lambda, y)
  {
    assert forall i :: 0 <= i < |x| ==> (x + y)[i] == x[i];
    assert forall i :: 0 <= i < |y| ==> (x + y)[|x| + i] == y[i];
  }

  /** Undoing a step keeps a form vanishing. */
  lemma VanishBack(g: Grammar, lambda: set<nat>, x: Form, z: Form)
    requires LambdaClosed(g, lambda) && IsStep(g, x, z) && AllVanish(lambda, z)
    ensures AllVanish(lambda, x)
  {
    var i: nat, r: nat, k: nat :| i < |x| && StepWith(g, x, i, r, k, z);
    var by' := if x[i].Nonterminal? then g[r].rhs else [Terminal(x[i].tokens[k])];
    assert z == x[..i] + by' + x[i + 1..];
    VanishSplit(lambda, x[..i] + by', x[i + 1..]);
    VanishSplit(lambda, x[..i], by');
    assert !x[i].Nonterminal? ==> !Vanishes(lambda, by'[0]);
    assert x == x[..i] + ([x[i]] + x[i + 1..]);
    VanishSplit(lambda, x[..i], [x[i]] + x[i + 1..]);
    VanishSplit(lambda, [x[i]], x[i + 1..]);
  }

  lemma {:induction false} VanishComplete(g: Grammar, lambda: set<nat>, n: nat, x: Form)
    requires LambdaClosed(g, lambda) && DerivesIn(g, n, x, [])
    ensures AllVanish(lambda, x)
  {
    if n > 0 {
      var z :| IsStep(g, x, z) && DerivesIn(g, n - 1, z, []);
      VanishComplete(g, lambda, n - 1, z);
      VanishBack(g, lambda, x, z);
    }
  }

  /** Where a beginning of a form made of three parts comes from. */
  lemma StartsParts(lambda: set<nat>, first: Pairs, a: Form, b: Form, c: Form, t: nat)
    requires Starts(lambda, first, a + b + c, t)
    ensures Starts(lambda, first, a, t)
      || (AllVanish(lambda, a) && Starts(lambda, first, b, t))
      || (AllVanish(lambda, a) && AllVanish(lambda, b) && Starts(lambda, first, c, t))
  {
    var x := a + b + c;
    var i: nat :| i < |x| && StartsAt(lambda, first, x, i, t);
    if i < |a| {
      assert x[..i] == a[..i] && x[i] == a[i];
      assert StartsAt(lambda, first, a, i, t);
    } else if i < |a| + |b| {
      var j := i - |a|;
      assert x[..i] == a + b[..j] && x[i] == b[j];
      VanishSplit(lambda, a, b[..j]);
      assert StartsAt(lambda, first, b, j, t);
    } else {
      var j := i - |a| - |b|;
      assert x[..i] == a + b + c[..j] && x[i] == c[j];
      VanishSplit(lambda, a + b, c[..j]);
      VanishSplit(lambda, a, b);
      assert StartsAt(lambda, first, c, j, t);
    }
  }

  lemma StartsJoin(lambda: set<nat>, first: Pairs, a: Form, b: Form, t: nat)
    requires Starts(lambda, first, a, t) || (AllVanish(lambda, a) && Starts(lambda, first, b, t))
    ensures Starts(lambda, first, a + b, t)
  {
    if Starts(lambda, first, a, t) {
      var i: nat :| i < |a| && StartsAt(lambda, first, a, i, t);
      assert (a + b)[..i] == a[..i];
      assert StartsAt(lambda, first, a + b, i, t);
    } else {
      var i: nat :| i < |b| && StartsAt(lambda, first, b, i, t);
      assert (a + b)[..|a| + i] == a + b[..i];
      VanishSplit(lambda, a, b[..i]);
      assert StartsAt(lambda, first, a + b, |a| + i, t);
    }
  }

  /** Undoing a step keeps what can begin a form. */
  lemma StartsBack(g: Grammar, lambda: set<nat>, first: Pairs, x: Form, z: Form, t: nat)
    requires LambdaClosed(g, lambda) && FirstClosed(g, lambda, first)
    requires IsStep(g, x, z) && Starts(lambda, first, z, t)
    ensures Starts(lambda, first, x, t)
  {
    var i: nat, r: nat, k: nat :| i < |x| && StepWith(g, x, i, r, k, z);
    var a, c := x[..i], x[i + 1..];
    var b := if x[i].Nonterminal? then g[r].rhs else [Terminal(x[i].tokens[k])];
    assert z == a + b + c && x == a + ([x[i]] + c);
    StartsParts(lambda, first, a, b, c, t);
    if !Starts(lambda, first, a, t) {
      ReplacedBy(g, lambda, first, x[i], b, r, k, t);
      StartsJoin(lambda, first, [x[i]], c, t);
    }
    StartsJoin(lambda, first, a, [x[i]] + c, t);
  }

  /** A symbol begins and vanishes at least as its replacement does. */
  lemma ReplacedBy(g: Grammar, lambda: set<nat>, first: Pairs, s: Symbol, b: Form, r: nat, k: nat, t: nat)
    requires LambdaClosed(g, lambda) && FirstClosed(g, lambda, first)
    requires match s
      case Terminal(_) => false
      case Nonterminal(a) => r < |g| && g[r].lhs == a && b == g[r].rhs
      case Multi(ts) => k < |ts| && b == [Terminal(ts[k])]
    ensures Starts(lambda, first, b, t) ==> Starts(lambda, first, [s], t)
    ensures AllVanish(lambda, b) ==> AllVanish(lambda, [s])
  {
    if Starts(lambda, first, b, t) {
      var i: nat :| i < |b| && StartsAt(lambda, first, b, i, t);
      assert StartsSymbol(first, s, t);
      assert StartsAt(lambda, first, [s], 0, t);
    }
    assert s.Multi? ==> !Vanishes(lambda, b[0]);
  }

  lemma {:induction false} StartsComplete(g: Grammar, lambda: set<nat>, first: Pairs, n: nat, x: Form,
                                          t: nat, rest: Form)
    requires LambdaClosed(g, lambda) && FirstClosed(g, lambda, first)
    requires DerivesIn(g, n, x, [Terminal(t)] + rest)
    ensures Starts(lambda, first, x, t)
  {
    if n == 0 {
      assert x[..0] == [];
      assert StartsAt(lambda, first, x, 0, t);
    } else {
      var z :| IsStep(g, x, z) && DerivesIn(g, n - 1, z, [Terminal(t)] + rest);
      StartsComplete(g, lambda, first, n - 1, z, t, rest);
      StartsBack(g, lambda, first, x, z, t);
    }
  }

  /** Sound and closed tables are exact. */
  lemma LambdaExact(g: Grammar, lambda: set<nat>, a: nat)
    requires LambdaSound(g, lambda) && LambdaClosed(g, lambda)
    ensures a in lambda <==> Nullable(g, a)
  {
    if Nullable(g, a) {
      var n: nat :| DerivesIn(g, n, [Nonterminal(a)], []);
      VanishComplete(g, lambda, n, [Nonterminal(a)]);
      assert Vanishes(lambda, [Nonterminal(a)][0]);
    }
  }

  lemma FirstExact(g: Grammar, lambda: set<nat>, first: Pairs, a: nat, t: nat)
    requires LambdaClosed(g, lambda) && FirstSound(g, first) && FirstClosed(g, lambda, first)
    ensures (a, t) in first <==> Begins(g, a, t)
  {
    if Begins(g, a, t) {
      var rest :| Derives(g, [Nonterminal(a)], [Terminal(t)] + rest);
      var n: nat :| DerivesIn(g, n, [Nonterminal(a)], [Terminal(t)] + rest);
      StartsComplete(g, lambda, first, n, [Nonterminal(a)], t, rest);
      var i: nat :| i < 1 && StartsAt(lambda, first, [Nonterminal(a)], i, t);
    }
  }

  /* ---- The two fixpoint loops ---- */

  ghost function LambdaView(lambda: array<bool>): (r: set<nat>)
    reads lambda
    ensures forall a: nat :: a in r <==> a < lambda.Length && lambda[a]
  {
    set a: nat | a < lambda.Length && lambda[a]
  }

  ghost function Rest(lambda: array<bool>): set<nat>
    reads lambda
  {
    set a: nat | a < lambda.Length && !lambda[a]
  }

  /** Whether every symbol of the right side can vanish, as far as is known. */
  method RuleVanishes(lambda: array<bool>, r: Rule) returns (all: bool)
    requires forall i :: 0 <= i < |r.rhs| && r.rhs[i].Nonterminal? ==> r.rhs[i].index < lambda.Length
    ensures all == AllVanish(LambdaView(lambda), r.rhs)
  {
    var i := 0;
    while i < |r.rhs|
      invariant i <= |r.rhs| && AllVanish(LambdaView(lambda), r.rhs[..i])
    {
      var s := r.rhs[i];
      if !(s.Nonterminal? && lambda[s.index]) {
        assert !Vanishes(LambdaView(lambda), r.rhs[i]);
        return false;
      }
      i := i + 1;
    }
    assert r.rhs[..i] == r.rhs;
    all := true;
  }

  /** Finds the nonterminals that derive the empty string. */
  method FindLambdas(g: Grammar, nonterminals: nat, terminals: nat) returns (lambda: array<bool>)
    requires GrammarOk(g, nonterminals, terminals)
    ensures fresh(lambda) && lambda.Length == nonterminals
    ensures LambdaSound(g, LambdaView(lambda)) && LambdaClosed(g, LambdaView(lambda))
  {
    lambda := new bool[nonterminals](_ => false);
    var progress := true;
    while progress
      invariant LambdaSound(g, LambdaView(lambda))
      invariant !progress ==> LambdaClosed(g, LambdaView(lambda))
      decreases |Rest(lambda)|, progress
    {
      progress := false;
      ghost var before, rest := LambdaView(lambda), Rest(lambda);
      var k := 0;
      while k < |g|
        invariant k <= |g| && LambdaSound(g, LambdaView(lambda))
        invariant if progress then |Rest(lambda)| < |rest| else LambdaView(lambda) == before && Rest(lambda) == rest
        invariant !progress ==> forall r :: 0 <= r < k && AllVanish(before, g[r].rhs) ==> g[r].lhs in before
      {
        if !lambda[g[k].lhs] {
          var all := RuleVanishes(lambda, g[k]);
          if all {
            ghost var view, left := LambdaView(lambda), Rest(lambda);
            LambdaStep(g, view, k);
            lambda[g[k].lhs] := true;
            assert LambdaView(lambda) == view + {g[k].lhs};
            assert Rest(lambda) == left - {g[k].lhs};
            progress := true;
          }
        }
        k := k + 1;
      }
    }
  }

  /** What the scan of one right side adds: the tokens that can begin it. */
  ghost predicate RuleDone(lambda: set<nat>, first: Pairs, lhs: nat, rhs: Form, upTo: nat)
    requires upTo <= |rhs|
  {
    forall i: nat, t: nat :: i < upTo && StartsAt(lambda, first, rhs, i, t) ==> (lhs, t) in first
  }

  lemma AddSound(g: Grammar, lambda: set<nat>, first: Pairs, r: nat, i: nat, added: Pairs)
    requires LambdaSound(g, lambda) && FirstSound(g, first) && r < |g| && i < |g[r].rhs|
    requires forall p :: p in added ==> p.0 == g[r].lhs && StartsAt(lambda, first, g[r].rhs, i, p.1)
    ensures FirstSound(g, first + added)
  {
    forall a: nat, t: nat | (a, t) in first + added ensures Begins(g, a, t) {
      if (a, t) in added { FirstStep(g, lambda, first, r, i, t); }
    }
  }

  /** The rule adds nothing more once nothing has changed. */
  ghost predicate Scanned(lambda: set<nat>, before: Pairs, now: Pairs, r: Rule, upTo: nat, progress: bool)
    requires upTo <= |r.rhs|
  {
    && before <= now && progress == (now != before)
    && (!progress ==> RuleDone(lambda, now, r.lhs, r.rhs, upTo))
  }

  lemma PrefixVanishes(lambda: set<nat>, x: Form, k: int, i: int)
    requires 0 <= i < k <= |x| && AllVanish(lambda, x[..k])
    ensures Vanishes(lambda, x[i])
  {
    assert x[..k][i] == x[i];
  }

  /** Past a symbol that cannot vanish nothing begins the right side. */
  lemma StopHere(lambda: set<nat>, first: Pairs, r: Rule, i: nat)
    requires i < |r.rhs| && !Vanishes(lambda, r.rhs[i]) && RuleDone(lambda, first, r.lhs, r.rhs, i + 1)
    ensures RuleDone(lambda, first, r.lhs, r.rhs, |r.rhs|)
  {
    forall k: nat, t: nat | k < |r.rhs| && StartsAt(lambda, first, r.rhs, k, t)
      ensures (r.lhs, t) in first
    {
      if k > i {
        PrefixVanishes(lambda, r.rhs, k, i);
        assert false;
      }
    }
  }

  method AddChoices(g: Grammar, rows: array2<bool>, ghost lambda: set<nat>, ghost r: nat, ghost i: nat,
                    lhs: nat, tokens: seq<nat>) returns (progress: bool)
    requires r < |g| && i < |g[r].rhs| && g[r].rhs[i] == Multi(tokens) && g[r].lhs == lhs < rows.Length0
    requires forall k :: 0 <= k < |tokens| ==> tokens[k] < rows.Length1
    requires LambdaSound(g, lambda) && FirstSound(g, View(rows)) && AllVanish(lambda, g[r].rhs[..i])
    modifies rows
    ensures FirstSound(g, View(rows)) && old(View(rows)) <= View(rows)
    ensures progress == (View(rows) != old(View(rows)))
    ensures forall k :: 0 <= k < |tokens| ==> (lhs, tokens[k]) in View(rows)
  {
    progress := false;
    var j := 0;
    while j < |tokens|
      invariant j <= |tokens| && FirstSound(g, View(rows)) && old(View(rows)) <= View(rows)
      invariant progress == (View(rows) != old(View(rows)))
      invariant forall k :: 0 <= k < j ==> (lhs, tokens[k]) in View(rows)
    {
      ghost var view := View(rows);
      AddSound(g, lambda, view, r, i, {(lhs, tokens[j])});
      var added := SetAdd(rows, lhs, tokens[j]);
      progress := progress || added;
      j := j + 1;
    }
  }

  /** Adds what the right side of one rule can begin with. */
  method ScanRule(g: Grammar, lambda: array<bool>, rows: array2<bool>, r: nat, terminals: nat)
      returns (progress: bool)
    requires GrammarOk(g, lambda.Length, terminals) && r < |g|
    requires rows.Length0 == lambda.Length && rows.Length1 == terminals
    requires LambdaSound(g, LambdaView(lambda)) && FirstSound(g, View(rows))
    modifies rows
    ensures FirstSound(g, View(rows))
    ensures Scanned(LambdaView(lambda), old(View(rows)), View(rows), g[r], |g[r].rhs|, progress)
  {
    ghost var l := LambdaView(lambda);
    var lhs, rhs := g[r].lhs, g[r].rhs;
    progress := false;
    var i := 0;
    while i < |rhs|
      invariant i <= |rhs| && FirstSound(g, View(rows)) && AllVanish(l, rhs[..i])
      invariant Scanned(l, old(View(rows)), View(rows), g[r], i, progress)
    {
      var s := rhs[i];
      var more := false;
      ghost var view := View(rows);
      match s {
        case Terminal(t) =>
          AddSound(g, l, view, r, i, {(lhs, t)});
          more := SetAdd(rows, lhs, t);
        case Multi(ts) =>
          more := AddChoices(g, rows, l, r, i, lhs, ts);
        case Nonterminal(a) =>
          if a != lhs {
            AddSound(g, l, view, r, i, Given(view, lhs, a));
            more := SetUnion(rows, lhs, a);
          }
      }
      progress := progress || more;
      ScanOne(l, old(View(rows)), view, View(rows), g[r], i, progress);
      if !(s.Nonterminal? && lambda[s.index]) {
        if !progress { StopHere(l, View(rows), g[r], i); }
        return;
      }
      i := i + 1;
    }
  }

  /** One more symbol scanned. */
  lemma ScanOne(lambda: set<nat>, before: Pairs, view: Pairs, now: Pairs, r: Rule, i: nat, progress: bool)
    requires i < |r.rhs| && before <= view <= now && progress == (now != before)
    requires !progress ==> RuleDone(lambda, view, r.lhs, r.rhs, i)
    requires forall t: nat :: StartsSymbol(view, r.rhs[i], t) ==> (r.lhs, t) in now
    ensures Scanned(lambda, before, now, r, i + 1, progress)
  {
    assert !progress ==> view == now;
  }

  lemma ClosedWhenDone(g: Grammar, lambda: set<nat>, first: Pairs)
    requires forall r :: 0 <= r < |g| ==> RuleDone(lambda, first, g[r].lhs, g[r].rhs, |g[r].rhs|)
    ensures FirstClosed(g, lambda, first)
  {
    forall r: nat, i: nat, t: nat | r < |g| && StartsAt(lambda, first, g[r].rhs, i, t)
      ensures (g[r].lhs, t) in first
    {
      assert RuleDone(lambda, first, g[r].lhs, g[r].rhs, |g[r].rhs|);
    }
  }

  /** One pass over all rules. */
  method ScanRules(g: Grammar, lambda: array<bool>, rows: array2<bool>, terminals: nat)
      returns (progress: bool)
    requires GrammarOk(g, lambda.Length, terminals)
    requires rows.Length0 == lambda.Length && rows.Length1 == terminals
    requires LambdaSound(g, LambdaView(lambda)) && FirstSound(g, View(rows))
    modifies rows
    ensures FirstSound(g, View(rows)) && old(View(rows)) <= View(rows)
    ensures progress == (View(rows) != old(View(rows)))
    ensures !progress ==> FirstClosed(g, LambdaView(lambda), View(rows))
  {
    ghost var l, before := LambdaView(lambda), View(rows);
    hide FirstSound, FirstClosed, RuleDone, GrammarOk, LambdaSound;
    progress := false;
    var k := 0;
    while k < |g|
      invariant k <= |g| && FirstSound(g, View(rows))
      invariant before <= View(rows) && progress == (View(rows) != before)
      invariant !progress ==> forall r :: 0 <= r < k ==> RuleDone(l, before, g[r].lhs, g[r].rhs, |g[r].rhs|)
    {
      var more := ScanRule(g, lambda, rows, k, terminals);
      progress := progress || more;
      k := k + 1;
    }
    if !progress { ClosedWhenDone(g, l, before); }
  }

  /** Finds the tokens that can begin a form derived from each nonterminal. */
  method FindFirsts(g: Grammar, lambda: array<bool>, terminals: nat) returns (rows: array2<bool>)
    requires GrammarOk(g, lambda.Length, terminals) && LambdaSound(g, LambdaView(lambda))
    ensures fresh(rows) && rows.Length0 == lambda.Length && rows.Length1 == terminals
    ensures FirstSound(g, View(rows)) && FirstClosed(g, LambdaView(lambda), View(rows))
  {
    rows := new bool[lambda.Length, terminals]((_, _) => false);
    assert FirstSound(g, View(rows));
    hide FirstSound, FirstClosed, GrammarOk, LambdaSound;
    var progress := true;
    while progress
      invariant FirstSound(g, View(rows))
      invariant !progress ==> FirstClosed(g, LambdaView(lambda), View(rows))
      decreases |Missing(rows)|, progress
    {
      ghost var before := View(rows);
      progress := ScanRules(g, lambda, rows, terminals);
      MissingShrinks(rows.Length0, rows.Length1, before, View(rows));
    }
  }

  /** Both computations: exact for every grammar. */
  method FindFirstSets(g: Grammar, nonterminals: nat, terminals: nat)
      returns (lambda: array<bool>, first: array2<bool>)
    requires GrammarOk(g, nonterminals, terminals)
    ensures lambda.Length == nonterminals && first.Length0 == nonterminals && first.Length1 == terminals
    ensures forall a: nat :: a < nonterminals ==> (lambda[a] <==> Nullable(g, a))
    ensures forall a: nat, t: nat :: a < nonterminals && t < terminals ==> (first[a, t] <==> Begins(g, a, t))
  {
    lambda := FindLambdas(g, nonterminals, terminals);
    first := FindFirsts(g, lambda, terminals);
    ghost var l, f := LambdaView(lambda), View(first);
    forall a: nat | a < nonterminals ensures lambda[a] <==> Nullable(g, a) {
      LambdaExact(g, l, a);
    }
    forall a: nat, t: nat | a < nonterminals && t < terminals ensures first[a, t] <==> Begins(g, a, t) {
      FirstExact(g, l, f, a, t);
    }
  }
}
