/** Exactly when the optimiser comes to rest on the windows it is given: a settled
    window with one item more. */
module KeyholeExact {
  import opened Assembly
  import opened KeyholeRing
  import opened KeyholeChains
  import opened KeyholeJoins
  import Sim = Simulation
  import R = KeyholeRules
  import E = KeyholeEffect
  import S = KeyholeSound
  import W = KeyholePasses
  import K = KeyholeMatch
  import T = KeyholeTermination
  import Q = KeyholeQueued

  /* ---- Swaps and concatenations ---- */

  /** No swap and no concatenation rule set applies. */
  predicate Quiet(w: W.Window) { forall k: nat :: k < 4 ==> W.Idle(w, k) }

  predicate NoHazards(q: Code, lo: nat, hi: nat) {
    lo <= hi <= |q| && forall g :: lo <= g < hi ==> !R.Hazardous(q[g])
  }

  /** A match of such a rule set spans no label and no branch. */
  lemma SpanQuiet(q: Code, counter: nat, k: nat, i: nat)
    requires k < 4 && i < |q| && R.Apply(q, counter, k, i).Present?
    ensures i <= E.LastHit(q, k, i) && NoHazards(q, i, E.LastHit(q, k, i) + 1)
    ensures var j := E.LastHit(q, k, i);
      && q[j].Instr? && (k < 2 ==> i < j && q[j].op == Swap)
      && (k >= 2 ==> i == j && (q[j].op == Concat || q[j].op == Sconcat))
  {
    if k < 2 {
      var j := E.SwapEffect(q, counter, k, i);
    } else {
      E.ShortenEffect(q, counter, k, i);
    }
    hide R.Apply, E.LastHit;
  }

  lemma AfterThreadItem(q: Code, counter: nat, k: nat, i: nat, rw: Sim.Rewrite, y: nat)
    requires 4 <= k < R.SetCount && i < |q| && S.Edits(q, counter, k, i, rw)
    requires rw.Thread? && Sim.Inside(rw, q) && y < |Sim.After(rw, q)| && !R.Hazardous(Sim.After(rw, q)[y])
    ensures y != i && y != rw.j + 1 && (rw.added != [] ==> y != rw.j + 2)
    ensures S.Origin(rw, y) < |q| && Sim.After(rw, q)[y] == q[S.Origin(rw, y)]
  {
    ThreadEdit(q, counter, k, i, rw);
    hide S.Edits, Sim.After;
    Sim.ThreadInstr(rw, q);
    Sim.ThreadItem(rw, q, i);
    Sim.ThreadItem(rw, q, rw.j + 1);
    Q.OriginPos(rw, q, y);
    hide Sim.Shape;
    if !(rw.added != [] && y == rw.j + 2) { ItemBack(q, rw, S.Origin(rw, y)); }
  }

  lemma ItemBack(q: Code, rw: Sim.Rewrite, x: nat)
    requires Sim.Shape(rw, q) && rw.Thread? && x < |q| && x != rw.i && x != rw.j + 1
    ensures Sim.Pos(rw, x) < |Sim.After(rw, q)| && Sim.After(rw, q)[Sim.Pos(rw, x)] == q[x]
  {
    Sim.ThreadItem(rw, q, x);
  }

  /** Item g of the span from lo stands as far behind `from` in the other code. */
  predicate SameItem(q': Code, lo: nat, q: Code, from: nat, g: int) {
    lo <= g < |q'| && from + (g - lo) < |q| && q'[g] == q[from + (g - lo)]
  }

  /** A span of the new window without labels and branches is one of the old window. */
  lemma SpanKept(q: Code, counter: nat, k: nat, i: nat, rw: Sim.Rewrite, lo: nat, hi: nat) returns (from: nat)
    requires 4 <= k < R.SetCount && i < |q| && S.Edits(q, counter, k, i, rw)
    requires rw.Thread? && Sim.Inside(rw, q) && lo < hi && NoHazards(Sim.After(rw, q), lo, hi)
    ensures K.Alike(Sim.After(rw, q), lo, q, from, hi)
  {
    hide S.Edits, Sim.After, Sim.Shape, R.Hazardous, S.Origin;
    from := S.Origin(rw, lo);
    forall g | lo <= g < hi ensures SameItem(Sim.After(rw, q), lo, q, from, g) {
      AfterThreadItem(q, counter, k, i, rw, g);
      SameSide(q, counter, k, i, rw, lo, hi, g);
    }
    SliceAlike(Sim.After(rw, q), lo, q, from, hi);
  }

  lemma SliceAlike(q': Code, lo: nat, q: Code, from: nat, hi: nat)
    requires lo < hi && forall g :: lo <= g < hi ==> SameItem(q', lo, q, from, g)
    ensures K.Alike(q', lo, q, from, hi)
  {
    assert SameItem(q', lo, q, from, hi - 1);
    var a, b := q'[lo..hi], q[from..from + (hi - lo)];
    forall n | 0 <= n < hi - lo ensures a[n] == b[n] {
      assert SameItem(q', lo, q, from, lo + n);
    }
    assert a == b;
  }

  lemma SameSide(q: Code, counter: nat, k: nat, i: nat, rw: Sim.Rewrite, lo: nat, hi: nat, g: nat)
    requires 4 <= k < R.SetCount && i < |q| && S.Edits(q, counter, k, i, rw)
    requires rw.Thread? && Sim.Inside(rw, q) && lo <= g < hi && NoHazards(Sim.After(rw, q), lo, hi)
    ensures S.Origin(rw, g) == S.Origin(rw, lo) + (g - lo)
  {
    ThreadEdit(q, counter, k, i, rw);
    hide S.Edits, Sim.After, Retargets, Sim.Shape, R.Hazardous;
    AfterThreadItem(q, counter, k, i, rw, lo);
    AfterThreadItem(q, counter, k, i, rw, g);
    if lo <= rw.j + 1 <= g { AfterThreadItem(q, counter, k, i, rw, rw.j + 1); }
  }

  lemma QuietKept(w: W.Window, k: nat, i: nat, rw: Sim.Rewrite, counter': nat)
    requires Quiet(w) && 4 <= k < R.SetCount && i < |w.queue| && S.Edits(w.queue, w.counter, k, i, rw)
    ensures Sim.Inside(rw, w.queue) && Quiet(R.Rewritten(Sim.After(rw, w.queue), counter'))
  {
    hide S.Edits, Sim.After, Sim.Inside, R.Apply, W.Idle;
    ThreadEdit(w.queue, w.counter, k, i, rw);
    var w' := R.Rewritten(Sim.After(rw, w.queue), counter');
    forall k2: nat | k2 < 4 ensures W.Idle(w', k2) {
      forall y: nat | y < |w'.queue| ensures R.Apply(w'.queue, counter', k2, y).Absent? {
        QuietAt(w, k, i, rw, counter', k2, y);
      }
      IdleIs(w', k2);
    }
  }

  lemma IdleIs(w: W.Window, k: nat)
    requires k < R.SetCount && forall at: nat :: at < |w.queue| ==> R.Apply(w.queue, w.counter, k, at).Absent?
    ensures W.Idle(w, k)
  {
    hide R.Apply;
  }

  lemma QuietAt(w: W.Window, k: nat, i: nat, rw: Sim.Rewrite, counter': nat, k2: nat, y: nat)
    requires Quiet(w) && 4 <= k < R.SetCount && i < |w.queue| && S.Edits(w.queue, w.counter, k, i, rw)
    requires k2 < 4 && Sim.Inside(rw, w.queue) && y < |Sim.After(rw, w.queue)|
    ensures R.Apply(Sim.After(rw, w.queue), counter', k2, y).Absent?
  {
    hide S.Edits, Sim.After, Retargets, Sim.Shape, R.Hazardous, R.Apply, E.LastHit, NoHazards;
    ThreadEdit(w.queue, w.counter, k, i, rw);
    var q' := Sim.After(rw, w.queue);
    assert W.Idle(w, k2);
    if R.Apply(q', counter', k2, y).Present? {
      SpanQuiet(q', counter', k2, y);
      var from := SpanKept(w.queue, w.counter, k, i, rw, y, E.LastHit(q', k2, y) + 1);
      K.MatchAlike(q', counter', y, w.queue, w.counter, from, k2, E.LastHit(q', k2, y) + 1);
      assert false;
    }
  }

  /* ---- The passes over a window with a new branch ---- */

  lemma MeetsOf(q: Code, counter: nat, k: nat, i: nat, rw: Sim.Rewrite)
    requires Retargets(q, counter, k, i, rw) && UniqueLabels(q)
    ensures K.Meets(q, k, i, rw.j)
  {
    Q.FirstLabel(q, i, rw.j);
  }

  /** The first branch goes first: another one is only retargeted where the first one
      does not stand, or behind an opposite branch that is cut off already. */
  lemma FirstGoesFirst(w: W.Window, k: nat, at: nat, rw: Sim.Rewrite, e: nat, first: nat)
    requires 4 <= k < R.SetCount && at < |w.queue| && at == W.FirstAt(w, k, 0)
    requires Turns(w.queue, w.counter, k, at, rw, e) && Queued(w.queue, e, first)
    requires Kin(w.queue, at, e) && first < at
    ensures Behind(w.queue, k, at, rw, e, Start(w.queue, first))
  {
    var q, goal := w.queue, Start(w.queue, first);
    hide R.Apply, S.Edits, Target, Joins, UniqueLabels, Below;
    TurnKinds(q, w.counter, k, at, rw, e);
    LabelPlace(q, w.counter, k, at, rw, at);
    assert R.Apply(q, w.counter, k, first).Absent?;
    if goal == rw.j + 1 {
      NotThere(q, w.counter, k, at, rw, first);
      assert false;
    }
    if k > 8 {
      CutAlready(q, e, first, at, rw.j + 1);
    }
  }

  lemma NotThere(q: Code, counter: nat, k: nat, at: nat, rw: Sim.Rewrite, first: nat)
    requires Retargets(q, counter, k, at, rw) && UniqueLabels(q) && k >= 7
    requires first < |q| && K.Tests(q[first]) && q[first].op == q[at].op && q[first].b.number == q[at].b.number
    requires Start(q, first) == rw.j + 1
    ensures R.Apply(q, counter, k, first).Present?
  {
    hide R.Apply, UniqueLabels, Target;
    StartMatches(q, counter, first);
    SameSet(k, q[at], q[first], q[rw.j + 1]);
  }

  lemma CutAlready(q: Code, e: nat, first: nat, at: nat, p: nat)
    requires Queued(q, e, first) && first < at && Kin(q, at, e) && p == Start(q, at) != Start(q, first)
    requires On(q, ViewOf(q, at), p) && !Same(q, ViewOf(q, at), p)
    ensures p + 1 < |q| && q[p + 1].Label?
  {
    hide Target;
    var m: nat :| JoinsIn(q, ViewOf(q, at), p, Start(q, first), m);
    JoinsStuck(q, ViewOf(q, at), p, Start(q, first), m);
  }

  lemma SameSet(k: nat, a: Item, b: Item, second: Item)
    requires 7 <= k && K.Partners(k, a, second) && K.Tests(b) && b.op == a.op && b.b.number == a.b.number
    ensures K.SetFor(b, second) == k
  {
  }

  lemma TurnQueued(w: W.Window, k: nat, e: nat, first: nat) returns (e': nat)
    requires k < R.SetCount && S.Tidy(w.queue, w.counter) && Quiet(w) && Queued(w.queue, e, first)
    ensures Quiet(W.Turn(w, k)) && Queued(W.Turn(w, k).queue, e', first)
    ensures Round(W.Turn(w, k).queue, first) <==> Round(w.queue, first)
  {
    var at := W.FirstAt(w, k, 0);
    W.TurnIdle(w, k);
    e' := e;
    hide R.Apply, UniqueLabels, Below, Joins, Circles, Target, Behind;
    if at < |w.queue| {
      var rw := S.WindowEdit(w.queue, w.counter, k, at);
      ThreadEdit(w.queue, w.counter, k, at, rw);
      EditShape(w.queue, w.counter, k, at, rw);
      MeetsOf(w.queue, w.counter, k, at, rw);
      hide Retargets, S.Edits;
      if Kin(w.queue, at, e) && first < at { FirstGoesFirst(w, k, at, rw, e, first); }
      NotKinBehind(w.queue, k, at, rw, e, Start(w.queue, first));
      QuietKept(w, k, at, rw, W.Turn(w, k).counter);
      Q.QueuedKept(w.queue, w.counter, k, at, rw, e, first);
      Q.RoundKept(w.queue, w.counter, k, at, rw, e, first);
      e' := Sim.Pos(rw, e);
    }
  }

  lemma NotKinBehind(q: Code, k: nat, i: nat, rw: Sim.Rewrite, e: nat, goal: nat)
    requires rw.Thread?
    ensures !Kin(q, i, e) ==> Behind(q, k, i, rw, e, goal)
  {
  }

  lemma {:induction false} OnwardQueued(w: W.Window, k: nat, e: nat, first: nat) returns (e': nat)
    requires S.Tidy(w.queue, w.counter) && Quiet(w) && Queued(w.queue, e, first)
    ensures Quiet(W.Onward(w, k)) && Queued(W.Onward(w, k).queue, e', first)
    ensures Round(W.Onward(w, k).queue, first) <==> Round(w.queue, first)
    decreases R.SetCount - k
  {
    hide S.Tidy, W.Turn, Quiet, Joins, Circles;
    e' := e;
    if k < R.SetCount {
      TurnTidy(w, k);
      e' := TurnQueued(w, k, e, first);
      e' := OnwardQueued(W.Turn(w, k), k + 1, e', first);
    }
  }

  lemma {:induction false} PassesQueued(w: W.Window, n: nat, e: nat, first: nat) returns (e': nat)
    requires S.Tidy(w.queue, w.counter) && Quiet(w) && Queued(w.queue, e, first)
    ensures S.Tidy(W.Passes(w, n).queue, W.Passes(w, n).counter) && Queued(W.Passes(w, n).queue, e', first)
    ensures Round(W.Passes(w, n).queue, first) <==> Round(w.queue, first)
    decreases n
  {
    hide S.Tidy, W.Onward, Quiet, Joins, Circles;
    e' := e;
    if n > 0 {
      OnwardRing(w, 0);
      e' := OnwardQueued(w, 0, e, first);
      e' := PassesQueued(W.Pass(w), n - 1, e', first);
    }
  }

  /** The passes end exactly if the first branch's chain comes to no ring. */
  lemma QueuedExact(w: W.Window, e: nat, first: nat)
    requires S.Tidy(w.queue, w.counter) && Quiet(w) && Queued(w.queue, e, first)
    ensures W.Ends(w) <==> !Round(w.queue, first)
  {
    hide UniqueLabels, Below, W.Pass, Quiet, Joins, Circles, HasRing, W.Settled;
    if Round(w.queue, first) {
      forall n: nat ensures !W.Settled(W.Passes(w, n)) {
        var e' := PassesQueued(w, n, e, first);
        RoundMatches(W.Passes(w, n), e', first);
      }
    } else {
      forall n: nat ensures !HasRing(W.Passes(w, n).queue) {
        var e' := PassesQueued(w, n, e, first);
        if HasRing(W.Passes(w, n).queue) { RingIsRound(W.Passes(w, n).queue, e', first); }
      }
      T.EndsUnlessRing(w);
    }
  }

  lemma RoundMatches(w: W.Window, e: nat, first: nat)
    requires S.Tidy(w.queue, w.counter) && Queued(w.queue, e, first) && Round(w.queue, first)
    ensures !W.Settled(w)
  {
    hide Joins, Circles, R.Apply, Target, UniqueLabels, Below;
    CirclesStep(w.queue, ViewOf(w.queue, first), Start(w.queue, first));
    StartMatches(w.queue, w.counter, first);
  }
}
