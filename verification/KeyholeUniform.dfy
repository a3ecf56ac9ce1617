/** Source files on which every match is right, whatever the optimiser does with them. */
module KeyholeUniform {
  import opened Assembly
  import opened KeyholeRun
  import M = Machine
  import Sim = Simulation
  import R = KeyholeRules
  import E = KeyholeEffect
  import S = KeyholeSound
  import W = KeyholePasses
  import K = KeyholeMatch
  import Y = KeyholeRing

  /** A register number is tested as one register only; a concatenation of a register
      number onto itself is onto one register and adds another one; swaps are of local
      registers, and nothing uses one of these without naming it. */
  ghost predicate Uniform(code: Code) {
    && (forall x, y :: x in code && y in code && K.Tests(x) && K.Tests(y) && x.b.number == y.b.number ==> x.b == y.b)
    && (forall x :: x in code && (E.SelfConcat(x, Concat) || E.SelfConcat(x, Sconcat)) ==> x.a == x.b && x.a != x.c)
    && (forall x, y :: x in code && y in code && IsSwap(x) ==> LocalSwap(x) && Open(x, y))
  }

  predicate IsSwap(x: Item) { x.Instr? && x.op == Swap }

  /** The instruction does not use a swapped register without naming it. */
  predicate Open(swap: Item, item: Item)
    requires swap.Instr?
  {
    item.Instr? ==> !item.op.Implicit? && (item.op.Count? ==> M.First(item) != swap.a && M.First(item) != swap.b)
  }

  predicate LocalSwap(x: Item)
    requires x.Instr?
  {
    (x.a.Reg? ==> x.a.kind == Local) && (x.b.Reg? ==> x.b.kind == Local)
  }

  /** What the optimiser makes of the items of a source file. */
  ghost predicate Derived(item: Item, base: Code) {
    || item in base || item.Label? || K.Forks(item)
    || (item.Instr? && (item.op == Append || item.op == Sappend))
    || (K.Tests(item) && exists x :: x in base && K.Tests(x) && x.b == item.b)
  }

  ghost predicate AllDerived(q: Code, base: Code) { forall item :: item in q ==> Derived(item, base) }

  lemma UniformDerived(q: Code, base: Code)
    requires Uniform(base) && AllDerived(q, base)
    ensures Uniform(q)
  {
  }

  lemma NewDerived(q: Code, counter: nat, k: nat, i: nat, rw: Sim.Rewrite, base: Code)
    requires k < R.SetCount && i < |q| && S.Edits(q, counter, k, i, rw) && AllDerived(q, base)
    ensures rw.Thread? ==> Derived(rw.s, base) && Derived(rw.t, base) && forall x :: x in rw.added ==> x.Label?
    ensures rw.Replace? ==> Derived(rw.item, base)
  {
    hide R.Apply, E.LastHit, Sim.After;
    if rw.Thread? {
      Y.EditRetargets(q, counter, k, i, rw);
      assert q[i] in q && q[rw.j + 1] in q;
      if k >= 7 { FirstRegister(q, counter, k, i, rw); }
      if k >= 7 {
        assert Derived(q[i], base);
        hide AllDerived, Sim.Shape;
        if q[i] in base { assert K.Tests(q[i]); }
      }
    }
  }

  lemma FirstRegister(q: Code, counter: nat, k: nat, i: nat, rw: Sim.Rewrite)
    requires k < R.SetCount && i < |q| && S.Edits(q, counter, k, i, rw) && k >= 7
    ensures rw.Thread? && rw.s.Instr? && rw.t.Instr? && q[i].Instr? && rw.s.b == q[i].b && rw.t.b == q[i].b
  {
    hide R.Apply, E.LastHit, Sim.After;
  }

  lemma TurnDerived(w: W.Window, k: nat, base: Code)
    requires k < R.SetCount && Below(w.queue, w.counter) && AllDerived(w.queue, base)
    ensures AllDerived(W.Turn(w, k).queue, base)
  {
    var at := W.FirstAt(w, k, 0);
    hide R.Apply, Derived;
    if at < |w.queue| {
      var rw := S.WindowEdit(w.queue, w.counter, k, at);
      Y.EditShape(w.queue, w.counter, k, at, rw);
      NewDerived(w.queue, w.counter, k, at, rw, base);
      hide S.Edits;
      forall item | item in Sim.After(rw, w.queue) ensures Derived(item, base) {
        S.ItemOrigin(rw, w.queue, item);
        LabelDerived(item, base);
      }
    }
  }

  lemma LabelDerived(item: Item, base: Code)
    ensures item.Label? ==> Derived(item, base)
  {
  }

  /** A match of such a window is right. */
  lemma UniformRight(q: Code, counter: nat, k: nat, i: nat)
    requires k < R.SetCount && i < |q| && R.Apply(q, counter, k, i).Present? && Uniform(q)
    ensures S.Right(q, k, i)
  {
    hide R.Apply, E.LastHit;
    if k < 2 {
      UniformSwap(q, counter, k, i);
    } else if k < 4 {
      E.ShortenEffect(q, counter, k, i);
      assert q[i] in q;
    } else if k >= 7 {
      UniformThread(q, counter, k, i);
    }
  }

  lemma UniformSwap(q: Code, counter: nat, k: nat, i: nat)
    requires k < 2 && i < |q| && R.Apply(q, counter, k, i).Present? && Uniform(q)
    ensures S.Right(q, k, i)
  {
    hide R.Apply, E.LastHit;
    var j := E.SwapEffect(q, counter, k, i);
    assert q[i] in q && q[j] in q;
    forall g | i < g < j ensures Sim.Unconcerned(q[g], q[i].a, q[i].b) {
      assert q[g] in q && !R.Hazardous(q[g]);
    }
  }

  lemma UniformThread(q: Code, counter: nat, k: nat, i: nat)
    requires 7 <= k < R.SetCount && i < |q| && R.Apply(q, counter, k, i).Present? && Uniform(q)
    ensures S.Right(q, k, i)
  {
    hide R.Apply, E.LastHit;
    var j, s, t, added := E.ThreadEffect(q, counter, k, i);
    K.AppliesMeets(q, counter, k, i, j, s, t, added);
    assert q[i] in q && q[j + 1] in q;
  }

  lemma {:induction false} OnwardUniform(w: W.Window, k: nat, base: Code)
    requires S.Tidy(w.queue, w.counter) && AllDerived(w.queue, base) && Uniform(base)
    ensures OnwardRight(w, k)
    ensures S.Tidy(W.Onward(w, k).queue, W.Onward(w, k).counter) && AllDerived(W.Onward(w, k).queue, base)
    decreases R.SetCount - k
  {
    hide W.Turn, AllDerived, Uniform, S.Right, UniqueLabels, Below;
    if k < R.SetCount {
      UniformDerived(w.queue, base);
      if W.FirstAt(w, k, 0) < |w.queue| { UniformRight(w.queue, w.counter, k, W.FirstAt(w, k, 0)); }
      TurnDerived(w, k, base);
      Y.TurnTidy(w, k);
      OnwardUniform(W.Turn(w, k), k + 1, base);
    }
  }

  lemma {:induction false} PassesUniform(w: W.Window, n: nat, base: Code)
    requires S.Tidy(w.queue, w.counter) && AllDerived(w.queue, base) && Uniform(base)
    ensures OnwardRight(W.Passes(w, n), 0) && AllDerived(W.Passes(w, n).queue, base)
    decreases n
  {
    hide W.Onward, AllDerived, Uniform, S.Tidy, OnwardRight;
    OnwardUniform(w, 0, base);
    if n > 0 { PassesUniform(W.Pass(w), n - 1, base); }
  }

  lemma RestUniform(w: W.Window, base: Code)
    requires S.Tidy(w.queue, w.counter) && AllDerived(w.queue, base) && Uniform(base)
    ensures RunRight(w) && AllDerived(W.Rest(w).queue, base)
  {
    hide W.Pass, AllDerived, Uniform, S.Tidy, OnwardRight, W.Settled;
    forall n: nat ensures OnwardRight(W.Passes(w, n), 0) && AllDerived(W.Passes(w, n).queue, base) {
      PassesUniform(w, n, base);
    }
    assert W.Passes(w, 0) == w;
  }

  lemma {:induction false} ShiftDerived(p: Progress, base: Code)
    requires AllDerived(p.queue, base)
    ensures AllDerived(Shift(p).queue, base)
    decreases |p.queue|
  {
    hide Derived;
    if |p.queue| >= TargetSize {
      assert forall item :: item in p.queue[1..] ==> item in p.queue;
      ShiftDerived(Progress(p.emitted + [p.queue[0]], p.queue[1..], p.counter), base);
    }
  }

  lemma {:induction false} RunDerived(commands: seq<Command>, n: nat)
    requires S.Tidy(Given(commands), 0) && Uniform(Given(commands)) && n <= |commands|
    ensures AllDerived(Run(commands[..n]).queue, Given(commands))
    decreases n
  {
    hide Uniform, S.Tidy, Derived, W.Rest;
    if n > 0 {
      RunDerived(commands, n - 1);
      assert commands[..n][..n - 1] == commands[..n - 1];
      if commands[n - 1].Add? { PresentedUniform(commands, n - 1); }
    }
  }

  lemma PresentedUniform(commands: seq<Command>, n: nat)
    requires S.Tidy(Given(commands), 0) && Uniform(Given(commands)) && n < |commands| && commands[n].Add?
    requires AllDerived(Run(commands[..n]).queue, Given(commands))
    ensures var w := Presented(Run(commands[..n]), commands[n].item);
      RunRight(w) && AllDerived(W.Rest(w).queue, Given(commands))
  {
    hide Uniform, S.Tidy, Run, W.Rest, RunRight;
    ShiftDerived(Run(commands[..n]), Given(commands));
    assert Given(commands)[n] == commands[n].item;
    assert Derived(commands[n].item, Given(commands));
    hide Derived;
    PresentedTidy(commands, n);
    RestUniform(Presented(Run(commands[..n]), commands[n].item), Given(commands));
  }

  /** On a uniform source file every match is right. */
  lemma UniformAllRight(commands: seq<Command>)
    requires S.Tidy(Given(commands), 0) && Uniform(Given(commands))
    ensures AllRight(commands)
  {
    hide Uniform, S.Tidy, Run, RunRight, AllDerived;
    forall n | 0 <= n < |commands| && commands[n].Add?
      ensures RunRight(Presented(Run(commands[..n]), commands[n].item))
    {
      RunDerived(commands, n);
      PresentedUniform(commands, n);
    }
  }
}
