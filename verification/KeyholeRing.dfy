/** Chains of conditional branches through a window, and the rings that keep the
    optimiser running for ever. */
module KeyholeRing {
  import opened Assembly
  import Sim = Simulation
  import R = KeyholeRules
  import E = KeyholeEffect
  import S = KeyholeSound
  import W = KeyholePasses
  import K = KeyholeMatch

  /** A branch at a position looks on from there for branches on its register number. */
  datatype View = View(at: nat, op: Op, number: nat)

  /** The place behind a label that stands behind the position; else the end. */
  function Target(q: Code, at: nat, name: Name): (p: nat)
    ensures p <= |q| && (at < |q| ==> at < p)
  {
    var j := Find(q, name); if at < j < |q| then j + 1 else |q|
  }

  predicate On(q: Code, v: View, p: nat) { p < |q| && K.Tests(q[p]) && q[p].b.number == v.number }

  predicate Same(q: Code, v: View, p: nat) { On(q, v, p) && q[p].op == v.op }

  /** Where the rules lead on from a branch on the same number: on the same condition to
      its target, on the opposite one to the place behind it. */
  function Next(q: Code, v: View, p: nat): (p': nat)
    ensures p' <= |q| && (v.at < |q| && (Same(q, v, p) || v.at < p) ==> v.at < p')
  {
    if !On(q, v, p) then |q| else if q[p].op == v.op then Target(q, v.at, q[p].a.name) else p + 1
  }

  function Along(q: Code, v: View, p: nat, m: nat): nat
    decreases m
  {
    if m == 0 then p else Along(q, v, Next(q, v, p), m - 1)
  }

  /** From here on, branches on the same condition lead to one another for ever. */
  ghost predicate Ring(q: Code, v: View, p: nat) { forall m: nat :: Same(q, v, Along(q, v, p, m)) }

  function ViewOf(q: Code, i: nat): View
    requires i < |q| && K.Tests(q[i])
  {
    View(i, q[i].op, q[i].b.number)
  }

  function Start(q: Code, i: nat): nat
    requires i < |q| && K.Tests(q[i])
  {
    Target(q, i, q[i].a.name)
  }

  /** Some conditional branch goes forward into a ring that stays behind it. */
  ghost predicate HasRing(q: Code) {
    exists i :: 0 <= i < |q| && K.Tests(q[i]) && Ring(q, ViewOf(q, i), Start(q, i))
  }

  lemma RingStep(q: Code, v: View, p: nat)
    requires Ring(q, v, p)
    ensures Same(q, v, p) && Ring(q, v, Next(q, v, p))
  {
    assert Along(q, v, p, 0) == p;
    forall m: nat ensures Same(q, v, Along(q, v, Next(q, v, p), m)) {
      assert Along(q, v, p, m + 1) == Along(q, v, Next(q, v, p), m);
    }
  }

  /* ---- Branches after an application ---- */

  function Moves(rw: Sim.Rewrite, v: View): View { v.(at := Sim.Pos(rw, v.at)) }

  /** What an application of a branch rule set leaves, as far as chains are concerned. */
  predicate Retargets(q: Code, counter: nat, k: nat, i: nat, rw: Sim.Rewrite) {
    && 4 <= k < R.SetCount && rw.Thread? && rw.i == i < rw.j && rw.j + 1 < |q|
    && q[i].Instr? && q[i].a.Id? && q[rw.j] == Label(q[i].a.name)
    && K.Partners(k, q[i], q[rw.j + 1])
    && (if k == 6 || k == 7 || k == 8 then rw.added == [] else rw.added == [Label(Gen(counter))])
    && (if k < 7 then K.Forks(rw.s) && rw.t == q[rw.j + 1]
        else (
          && K.Tests(rw.s) && rw.s.op == q[i].op && rw.s.b.number == q[i].b.number
          && rw.s.a == (if k <= 8 then q[rw.j + 1].a else Id(Gen(counter)))
          && K.Tests(rw.t) && rw.t.op == q[rw.j + 1].op && rw.t.a == q[rw.j + 1].a
          && rw.t.b.number == q[rw.j + 1].b.number))
  }

  lemma EditRetargets(q: Code, counter: nat, k: nat, i: nat, rw: Sim.Rewrite)
    requires k < R.SetCount && i < |q| && S.Edits(q, counter, k, i, rw)
    ensures k >= 4 ==> Retargets(q, counter, k, i, rw)
    ensures k < 4 ==> !rw.Thread?
  {
    hide R.Apply, E.LastHit, Sim.After;
    if k >= 4 { K.AppliesMeets(q, counter, k, i, rw.j, rw.s, rw.t, rw.added); }
  }

  /** A conditional branch that is not retargeted stays as it is, up to its register's kind. */
  lemma KeptItem(q: Code, counter: nat, k: nat, i: nat, rw: Sim.Rewrite, p: nat)
    requires k < R.SetCount && i < |q| && S.Edits(q, counter, k, i, rw)
    requires p < |q| && K.Tests(q[p]) && (k >= 7 ==> p != i)
    ensures Sim.Pos(rw, p) < |Sim.After(rw, q)|
    ensures var item := Sim.After(rw, q)[Sim.Pos(rw, p)];
      K.Tests(item) && item.op == q[p].op && item.a == q[p].a && item.b.number == q[p].b.number
  {
    EditRetargets(q, counter, k, i, rw);
    EditShape(q, counter, k, i, rw);
    hide R.Apply, E.LastHit, S.Edits, Sim.After, Sim.Shape, Retargets;
    match rw
    case Thread(_, _, _, _, _) => KeptThread(q, counter, k, i, rw, p);
    case Pair(_, _) => Sim.PairItem(rw, q, p);
    case Replace(_, _) => KeptReplace(rw, q, p);
  }

  lemma KeptThread(q: Code, counter: nat, k: nat, i: nat, rw: Sim.Rewrite, p: nat)
    requires Retargets(q, counter, k, i, rw) && Sim.Shape(rw, q)
    requires p < |q| && K.Tests(q[p]) && (k >= 7 ==> p != i)
    ensures Sim.Pos(rw, p) < |Sim.After(rw, q)|
    ensures var item := Sim.After(rw, q)[Sim.Pos(rw, p)];
      K.Tests(item) && item.op == q[p].op && item.a == q[p].a && item.b.number == q[p].b.number
  {
    hide Sim.Shape, Sim.After, Sim.Pos;
    Sim.ThreadItem(rw, q, p);
  }

  lemma KeptReplace(rw: Sim.Rewrite, q: Code, p: nat)
    requires Sim.Shape(rw, q) && rw.Replace? && p < |q| && p != rw.i
    ensures |Sim.After(rw, q)| == |q| && Sim.After(rw, q)[p] == q[p]
  {
  }

  /** Where the edit is, and that it is not at a conditional branch unless it retargets. */
  lemma EditShape(q: Code, counter: nat, k: nat, i: nat, rw: Sim.Rewrite)
    requires k < R.SetCount && i < |q| && S.Edits(q, counter, k, i, rw)
    ensures Sim.Shape(rw, q) && rw.i == i
    ensures rw.Pair? ==> k < 2 && q[rw.i].Instr? && q[rw.i].op == Swap && q[rw.j].Instr? && q[rw.j].op == Swap
    ensures rw.Replace? ==> 2 <= k < 4 && (q[rw.i].op == Concat || q[rw.i].op == Sconcat)
    ensures R.Apply(q, counter, k, i).Present? && R.Apply(q, counter, k, i).value.queue == Sim.After(rw, q)
  {
    hide R.Apply, E.LastHit;
  }

  /** Positions keep their order around labels. */
  lemma PosOrder(rw: Sim.Rewrite, q: Code, at: nat, j: nat)
    requires Sim.Shape(rw, q) && at <= |q| && j <= |q|
    requires rw.Pair? ==> at != rw.i && at != rw.j && j != rw.i && j != rw.j
    ensures at < j <==> Sim.Pos(rw, at) < Sim.Pos(rw, j)
    ensures j < |q| && q[j].Label? ==> Sim.Pos(rw, j + 1) == Sim.Pos(rw, j) + 1
  {
  }

  lemma PosEnd(rw: Sim.Rewrite, q: Code)
    requires Sim.Shape(rw, q)
    ensures Sim.Pos(rw, |q|) == |Sim.After(rw, q)|
  {
    if rw.Thread? { Sim.ThreadSize(rw, q); }
  }

  lemma ShapeFind(rw: Sim.Rewrite, q: Code, name: Name)
    requires Sim.Shape(rw, q) && (rw.Thread? && rw.added != [] ==> rw.added[0].name != name)
    ensures Find(Sim.After(rw, q), name) == Sim.Pos(rw, Find(q, name))
    ensures Sim.Pos(rw, |q|) == |Sim.After(rw, q)|
  {
    PosEnd(rw, q);
    match rw
    case Thread(_, _, _, _, _) => Sim.ThreadFind(rw, q, name);
    case Pair(_, _) => Sim.PairFind(rw, q, name);
    case Replace(_, _) => Sim.ReplaceFind(rw, q, name);
  }

  /** Names of the old window lead to the same places. */
  lemma KeptTarget(rw: Sim.Rewrite, q: Code, at: nat, name: Name)
    requires Sim.Shape(rw, q) && (rw.Thread? && rw.added != [] ==> rw.added[0].name != name)
    requires at < |q| && (rw.Pair? ==> at != rw.i && at != rw.j)
    ensures Target(Sim.After(rw, q), Sim.Pos(rw, at), name) == Sim.Pos(rw, Target(q, at, name))
  {
    hide Sim.After, Sim.Shape, Sim.Pos;
    var j := Find(q, name);
    ShapeFind(rw, q, name);
    LabelApart(rw, q, j);
    PosOrder(rw, q, at, j);
    PosOrder(rw, q, j, |q|);
  }

  lemma LabelApart(rw: Sim.Rewrite, q: Code, j: nat)
    requires Sim.Shape(rw, q) && j <= |q| && (j < |q| ==> q[j].Label?)
    ensures rw.Pair? ==> j != rw.i && j != rw.j && |q| != rw.i && |q| != rw.j
  {
  }

  /** The view's own branch is not one of the removed swaps. */
  lemma ViewApart(q: Code, counter: nat, k: nat, i: nat, rw: Sim.Rewrite, at: nat)
    requires k < R.SetCount && i < |q| && S.Edits(q, counter, k, i, rw) && at < |q| && K.Tests(q[at])
    ensures Sim.Shape(rw, q) && (rw.Pair? ==> at != rw.i && at != rw.j)
  {
    EditShape(q, counter, k, i, rw);
    hide S.Edits, Sim.Shape, R.Apply;
  }

  lemma OldName(q: Code, counter: nat, k: nat, i: nat, rw: Sim.Rewrite, p: nat)
    requires k < R.SetCount && i < |q| && S.Edits(q, counter, k, i, rw) && Below(q, counter)
    requires p < |q| && K.Tests(q[p])
    ensures rw.Thread? && rw.added != [] ==> rw.added[0].name != q[p].a.name
  {
    EditRetargets(q, counter, k, i, rw);
    assert q[p] in q && Mentions(q[p], q[p].a.name);
    hide S.Edits;
  }

  /** A step of a chain over a branch that is not retargeted. */
  lemma StepKept(q: Code, counter: nat, k: nat, i: nat, rw: Sim.Rewrite, v: View, p: nat)
    requires k < R.SetCount && i < |q| && S.Edits(q, counter, k, i, rw) && Below(q, counter)
    requires v.at < |q| && K.Tests(q[v.at]) && On(q, v, p) && (k >= 7 ==> p != i)
    ensures On(Sim.After(rw, q), Moves(rw, v), Sim.Pos(rw, p))
    ensures Sim.After(rw, q)[Sim.Pos(rw, p)].op == q[p].op
    ensures Same(q, v, p) ==>
      Next(Sim.After(rw, q), Moves(rw, v), Sim.Pos(rw, p)) == Sim.Pos(rw, Next(q, v, p))
  {
    KeptItem(q, counter, k, i, rw, p);
    ViewApart(q, counter, k, i, rw, v.at);
    OldName(q, counter, k, i, rw, p);
    hide S.Edits, Sim.After, Sim.Pos, Sim.Shape, Target;
    KeptTarget(rw, q, v.at, q[p].a.name);
  }

  /** The retargeted branch itself: it is as it was, and leads past the label. */
  lemma RetargetedItem(q: Code, counter: nat, k: nat, i: nat, rw: Sim.Rewrite)
    requires k < R.SetCount && i < |q| && S.Edits(q, counter, k, i, rw) && Below(q, counter) && k >= 7
    ensures Retargets(q, counter, k, i, rw)
    ensures i < |Sim.After(rw, q)| && Sim.After(rw, q)[i] == rw.s && Sim.Pos(rw, i) == i
  {
    EditRetargets(q, counter, k, i, rw);
    EditShape(q, counter, k, i, rw);
    hide S.Edits, Sim.After, R.Apply;
    Sim.ThreadItem(rw, q, i);
  }

  /** On the same condition the branch now goes where the second one goes. */
  lemma ShortTarget(q: Code, counter: nat, k: nat, i: nat, rw: Sim.Rewrite, at: nat)
    requires 7 <= k <= 8 && i < |q| && S.Edits(q, counter, k, i, rw) && Below(q, counter)
    requires at < |q| && K.Tests(q[at])
    ensures Retargets(q, counter, k, i, rw)
    ensures Target(Sim.After(rw, q), Sim.Pos(rw, at), rw.s.a.name)
      == Sim.Pos(rw, Target(q, at, q[rw.j + 1].a.name))
  {
    RetargetedItem(q, counter, k, i, rw);
    ViewApart(q, counter, k, i, rw, at);
    OldName(q, counter, k, i, rw, rw.j + 1);
    hide S.Edits, Sim.After, Sim.Pos, Sim.Shape, Target;
    KeptTarget(rw, q, at, q[rw.j + 1].a.name);
  }

  lemma LabelPlace(q: Code, counter: nat, k: nat, i: nat, rw: Sim.Rewrite, at: nat)
    requires Retargets(q, counter, k, i, rw) && UniqueLabels(q)
    ensures Find(q, q[i].a.name) == rw.j
    ensures Target(q, at, q[i].a.name) == (if at < rw.j then rw.j + 1 else |q|)
  {
    S.UniqueFind(q, rw.j);
  }

  /** A ring never comes to an end by an application: at most it gets shorter. */
  lemma {:induction false} RingKeptFor(q: Code, counter: nat, k: nat, i: nat, rw: Sim.Rewrite, v: View, p: nat, m: nat)
    requires k < R.SetCount && i < |q| && S.Edits(q, counter, k, i, rw) && S.Tidy(q, counter)
    requires v.at < |q| && K.Tests(q[v.at]) && Ring(q, v, p)
    ensures Same(Sim.After(rw, q), Moves(rw, v), Along(Sim.After(rw, q), Moves(rw, v), Sim.Pos(rw, p), m))
    decreases m
  {
    hide Ring, S.Edits, Sim.After, Sim.Pos, UniqueLabels, Below, Next, Target;
    RingStep(q, v, p);
    if k >= 7 && p == i {
      RingRetargeted(q, counter, k, i, rw, v);
      if m > 0 { RingKeptFor(q, counter, k, i, rw, v, Next(q, v, rw.j + 1), m - 1); }
    } else {
      StepKept(q, counter, k, i, rw, v, p);
      if m > 0 { RingKeptFor(q, counter, k, i, rw, v, Next(q, v, p), m - 1); }
    }
  }

  lemma RingRetargeted(q: Code, counter: nat, k: nat, i: nat, rw: Sim.Rewrite, v: View)
    requires 7 <= k < R.SetCount && i < |q| && S.Edits(q, counter, k, i, rw) && S.Tidy(q, counter)
    requires v.at < |q| && K.Tests(q[v.at]) && Ring(q, v, i)
    ensures rw.Thread? && Ring(q, v, Next(q, v, rw.j + 1))
    ensures var q' := Sim.After(rw, q);
      Same(q', Moves(rw, v), Sim.Pos(rw, i)) && Next(q', Moves(rw, v), Sim.Pos(rw, i)) == Sim.Pos(rw, Next(q, v, rw.j + 1))
  {
    hide Ring, S.Edits, Sim.After, Sim.Pos, UniqueLabels, Below, Target;
    RetargetedItem(q, counter, k, i, rw);
    LabelPlace(q, counter, k, i, rw, v.at);
    RingStep(q, v, i);
    RingStep(q, v, Next(q, v, i));
    assert Next(q, v, i) == rw.j + 1;
    ShortTarget(q, counter, k, i, rw, v.at);
  }

  lemma RingKept(q: Code, counter: nat, k: nat, i: nat, rw: Sim.Rewrite, v: View, p: nat)
    requires k < R.SetCount && i < |q| && S.Edits(q, counter, k, i, rw) && S.Tidy(q, counter)
    requires v.at < |q| && K.Tests(q[v.at]) && Ring(q, v, p)
    ensures Ring(Sim.After(rw, q), Moves(rw, v), Sim.Pos(rw, p))
  {
    EditShape(q, counter, k, i, rw);
    hide S.Edits, Sim.After, Sim.Pos, UniqueLabels, Below, R.Apply;
    forall m: nat
      ensures Same(Sim.After(rw, q), Moves(rw, v), Along(Sim.After(rw, q), Moves(rw, v), Sim.Pos(rw, p), m))
    {
      RingKeptFor(q, counter, k, i, rw, v, p, m);
    }
  }

  /** The window's own branch before a ring stays before one. */
  lemma StartKept(q: Code, counter: nat, k: nat, i: nat, rw: Sim.Rewrite, b: nat)
    requires k < R.SetCount && i < |q| && S.Edits(q, counter, k, i, rw) && S.Tidy(q, counter)
    requires b < |q| && K.Tests(q[b]) && Ring(q, ViewOf(q, b), Start(q, b))
    ensures HasRing(Sim.After(rw, q))
  {
    hide Ring, S.Edits, Sim.After, Sim.Pos, UniqueLabels, Below;
    if k >= 7 && b == i {
      RetargetedStart(q, counter, k, i, rw);
    } else {
      OtherStart(q, counter, k, i, rw, b);
    }
  }

  lemma RetargetedStart(q: Code, counter: nat, k: nat, i: nat, rw: Sim.Rewrite)
    requires 7 <= k < R.SetCount && i < |q| && S.Edits(q, counter, k, i, rw) && S.Tidy(q, counter)
    requires K.Tests(q[i]) && Ring(q, ViewOf(q, i), Start(q, i))
    ensures HasRing(Sim.After(rw, q))
  {
    hide Ring, S.Edits, Sim.After, Sim.Pos, UniqueLabels, Below;
    var v := ViewOf(q, i);
    RetargetedItem(q, counter, k, i, rw);
    LabelPlace(q, counter, k, i, rw, i);
    RingStep(q, v, rw.j + 1);
    ShortTarget(q, counter, k, i, rw, i);
    RingKept(q, counter, k, i, rw, v, Next(q, v, rw.j + 1));
    hide Target, Retargets;
    assert ViewOf(Sim.After(rw, q), i) == Moves(rw, v);
  }

  lemma OtherStart(q: Code, counter: nat, k: nat, i: nat, rw: Sim.Rewrite, b: nat)
    requires k < R.SetCount && i < |q| && S.Edits(q, counter, k, i, rw) && S.Tidy(q, counter)
    requires b < |q| && K.Tests(q[b]) && Ring(q, ViewOf(q, b), Start(q, b)) && (k >= 7 ==> b != i)
    ensures HasRing(Sim.After(rw, q))
  {
    hide Ring, S.Edits, Sim.After, Sim.Pos, UniqueLabels, Below;
    KeptItem(q, counter, k, i, rw, b);
    ViewApart(q, counter, k, i, rw, b);
    OldName(q, counter, k, i, rw, b);
    hide Sim.Shape, Target;
    KeptTarget(rw, q, b, q[b].a.name);
    RingKept(q, counter, k, i, rw, ViewOf(q, b), Start(q, b));
    assert ViewOf(Sim.After(rw, q), Sim.Pos(rw, b)) == Moves(rw, ViewOf(q, b));
  }

  /* ---- A ring for ever ---- */

  lemma TurnTidy(w: W.Window, k: nat)
    requires k < R.SetCount && S.Tidy(w.queue, w.counter)
    ensures S.Tidy(W.Turn(w, k).queue, W.Turn(w, k).counter)
  {
    var at := W.FirstAt(w, k, 0);
    hide R.Apply, UniqueLabels, Below;
    if at < |w.queue| {
      assert S.Whole([], w.queue, []) == w.queue;
      assert S.Whole([], W.Turn(w, k).queue, []) == W.Turn(w, k).queue;
      S.RuleKeepsTidy([], w.queue, [], w.counter, k, at);
    }
  }

  lemma TurnRing(w: W.Window, k: nat)
    requires k < R.SetCount && S.Tidy(w.queue, w.counter) && HasRing(w.queue)
    ensures HasRing(W.Turn(w, k).queue)
  {
    var at := W.FirstAt(w, k, 0);
    hide R.Apply, UniqueLabels, Ring, Below;
    if at < |w.queue| {
      assert S.Tidy(w.queue, w.counter) ==> Below(w.queue, w.counter);
      var rw := S.WindowEdit(w.queue, w.counter, k, at);
      EditShape(w.queue, w.counter, k, at, rw);
      var b :| 0 <= b < |w.queue| && K.Tests(w.queue[b]) && Ring(w.queue, ViewOf(w.queue, b), Start(w.queue, b));
      StartKept(w.queue, w.counter, k, at, rw, b);
    }
  }

  lemma {:induction false} OnwardRing(w: W.Window, k: nat)
    requires S.Tidy(w.queue, w.counter)
    ensures S.Tidy(W.Onward(w, k).queue, W.Onward(w, k).counter)
    ensures HasRing(w.queue) ==> HasRing(W.Onward(w, k).queue)
    decreases R.SetCount - k
  {
    hide S.Tidy, HasRing, W.Turn;
    if k < R.SetCount {
      TurnTidy(w, k);
      if HasRing(w.queue) { TurnRing(w, k); }
      OnwardRing(W.Turn(w, k), k + 1);
    }
  }

  lemma {:induction false} PassesRing(w: W.Window, n: nat)
    requires S.Tidy(w.queue, w.counter)
    ensures S.Tidy(W.Passes(w, n).queue, W.Passes(w, n).counter)
    ensures HasRing(w.queue) ==> HasRing(W.Passes(w, n).queue)
    decreases n
  {
    hide S.Tidy, HasRing, W.Onward;
    if n > 0 {
      OnwardRing(w, 0);
      PassesRing(W.Pass(w), n - 1);
    }
  }

  /** Before a branch on the same number a rule set matches. */
  lemma StartMatches(q: Code, counter: nat, b: nat)
    requires UniqueLabels(q) && b < |q| && K.Tests(q[b]) && On(q, ViewOf(q, b), Start(q, b))
    ensures R.Apply(q, counter, K.SetFor(q[b], q[Start(q, b)]), b).Present?
  {
    var j := Find(q, q[b].a.name);
    assert forall g :: b < g < j ==> q[g] != q[j];
    hide UniqueLabels;
    var k := K.SetFor(q[b], q[j + 1]);
    assert K.Meets(q, k, b, j);
    K.MeetsApplies(q, counter, k, b, j);
  }

  lemma RingMatches(w: W.Window)
    requires S.Tidy(w.queue, w.counter) && HasRing(w.queue)
    ensures !W.Settled(w)
  {
    hide R.Apply, UniqueLabels, Ring, Below;
    var b :| 0 <= b < |w.queue| && K.Tests(w.queue[b]) && Ring(w.queue, ViewOf(w.queue, b), Start(w.queue, b));
    RingStep(w.queue, ViewOf(w.queue, b), Start(w.queue, b));
    StartMatches(w.queue, w.counter, b);
  }

  /** A window with a ring: every pass changes something, for ever. */
  lemma RingNeverEnds(w: W.Window)
    requires S.Tidy(w.queue, w.counter) && HasRing(w.queue)
    ensures !W.Ends(w)
  {
    hide S.Tidy, HasRing, W.Settled;
    forall n: nat ensures !W.Settled(W.Passes(w, n)) {
      PassesRing(w, n);
      RingMatches(W.Passes(w, n));
    }
  }
}
