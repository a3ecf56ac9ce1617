/** The condition itself: whether one more item sends the optimiser round for ever. */
module KeyholeRunaway {
  import opened Assembly
  import opened KeyholeRing
  import opened KeyholeChains
  import opened KeyholeJoins
  import Sim = Simulation
  import R = KeyholeRules
  import E = KeyholeEffect
  import S = KeyholeSound
  import W = KeyholePasses
  import K = KeyholeMatch
  import T = KeyholeTermination
  import Q = KeyholeQueued
  import X = KeyholeExact

  /* ---- The condition ---- */

  /** After as many steps as the window is long, the chain only meets branches on its own
      condition. */
  predicate Loops(q: Code, v: View, p: nat) {
    forall m: nat :: |q| <= m <= 2 * |q| ==> Same(q, v, Along(q, v, p, m))
  }

  /** The first branch on the last one's condition that goes to the label before it. */
  function FirstTo(q: Code, i: nat): (first: nat)
    requires 2 <= |q| && q[|q| - 2].Label? && i < |q|
    ensures i <= first < |q|
    ensures first < |q| - 1 ==> Kin(q, first, |q| - 1) && q[first].a == Id(q[|q| - 2].name)
    ensures forall b :: i <= b < first ==> !(Kin(q, b, |q| - 1) && q[b].a == Id(q[|q| - 2].name))
    decreases |q| - i
  {
    if i == |q| - 1 || (Kin(q, i, |q| - 1) && q[i].a == Id(q[|q| - 2].name)) then i else FirstTo(q, i + 1)
  }

  /** A brt or brf comes in behind a label, an earlier branch on its condition goes to
      that label, and from there the branches lead into a loop on that condition. */
  predicate Runaway(q: Code) {
    && 2 <= |q| && K.Tests(q[|q| - 1]) && q[|q| - 2].Label?
    && var first := FirstTo(q, 0);
       first < |q| - 1 && Loops(q, ViewOf(q, first), |q| - 1)
  }

  /* ---- Loops and rings ---- */

  lemma {:induction false} AlongRing(q: Code, v: View, p: nat, m: nat)
    requires Ring(q, v, p)
    ensures Ring(q, v, Along(q, v, p, m))
    decreases m
  {
    hide Ring;
    if m > 0 {
      RingStep(q, v, p);
      AlongRing(q, v, Next(q, v, p), m - 1);
    }
  }

  lemma {:induction false} ReachesRing(q: Code, v: View, p: nat, m: nat)
    requires Reaches(q, v, p, m)
    ensures Ring(q, v, Along(q, v, p, m))
    decreases m
  {
    hide Ring, Next;
    if m > 0 { ReachesRing(q, v, Next(q, v, p), m - 1); }
  }

  lemma {:induction false} RingReaches(q: Code, v: View, p: nat, m: nat)
    requires Ring(q, v, Along(q, v, p, m))
    ensures Circles(q, v, p)
    decreases m
  {
    hide Ring, Circles;
    if m == 0 {
      RingCircles(q, v, p);
    } else {
      RingReaches(q, v, Next(q, v, p), m - 1);
      CirclesStep(q, v, p);
      if !On(q, v, p) { OffNowhere(q, v, |q|); }
    }
  }

  /** Once off the chain, for ever off it. */
  lemma OffAfter(q: Code, v: View, p: nat, m: nat, n: nat)
    requires !On(q, v, Along(q, v, p, m)) && m <= n
    ensures !On(q, v, Along(q, v, p, n))
  {
    T.AlongAdd(q, v, p, m, n - m);
    StaysOff(q, v, Along(q, v, p, m), n - m);
  }

  lemma {:induction false} StaysOff(q: Code, v: View, p: nat, m: nat)
    requires !On(q, v, p)
    ensures !On(q, v, Along(q, v, p, m))
    decreases m
  {
    if m > 0 { StaysOff(q, v, Next(q, v, p), m - 1); }
  }

  lemma {:induction false} SameLength(q: Code, v: View, p: nat, fuel: nat)
    requires forall m: nat :: m < fuel ==> Same(q, v, Along(q, v, p, m))
    ensures T.Length(q, v, p, fuel) == fuel
    decreases fuel
  {
    hide Same, Next;
    if fuel > 0 {
      assert Along(q, v, p, 0) == p;
      forall m: nat | m < fuel - 1 ensures Same(q, v, Along(q, v, Next(q, v, p), m)) {
        assert Along(q, v, p, m + 1) == Along(q, v, Next(q, v, p), m);
      }
      SameLength(q, v, Next(q, v, p), fuel - 1);
    }
  }

  /** Looking at a bounded number of steps is enough. */
  lemma LoopsExact(q: Code, v: View, p: nat)
    ensures Loops(q, v, p) <==> Circles(q, v, p)
  {
    hide Ring, Circles, Next, Same;
    if Loops(q, v, p) {
      var x := Along(q, v, p, |q|);
      forall m: nat | m < |q| + 1 ensures Same(q, v, Along(q, v, x, m)) {
        T.AlongAdd(q, v, p, |q|, m);
      }
      SameLength(q, v, x, |q| + 1);
      T.LongRing(q, v, x);
      RingReaches(q, v, p, |q|);
    }
    if Circles(q, v, p) { CirclesLoops(q, v, p); }
  }

  lemma CirclesLoops(q: Code, v: View, p: nat)
    requires Circles(q, v, p)
    ensures Loops(q, v, p)
  {
    hide Ring, Next;
    var m0: nat :| Reaches(q, v, p, m0);
    ReachesRing(q, v, p, m0);
    RingAtLength(q, v, p, m0);
    forall m: nat | |q| <= m <= 2 * |q| ensures Same(q, v, Along(q, v, p, m)) {
      T.AlongAdd(q, v, p, |q|, m - |q|);
      AlongRing(q, v, Along(q, v, p, |q|), m - |q|);
      RingStep(q, v, Along(q, v, p, m));
    }
  }

  lemma RingAtLength(q: Code, v: View, p: nat, m0: nat)
    requires Ring(q, v, Along(q, v, p, m0))
    ensures Ring(q, v, Along(q, v, p, |q|))
  {
    hide Ring, Next;
    if m0 <= |q| {
      T.AlongAdd(q, v, p, m0, |q| - m0);
      AlongRing(q, v, Along(q, v, p, m0), |q| - m0);
    } else {
      StaysOn(q, v, p, m0);
      var a, b := T.Repeats(q, v, p);
      var n := FarAround(q, v, p, a, b, m0);
      T.AlongAdd(q, v, p, m0, n - m0);
      AlongRing(q, v, Along(q, v, p, m0), n - m0);
    }
  }

  lemma StaysOn(q: Code, v: View, p: nat, m0: nat)
    requires Ring(q, v, Along(q, v, p, m0)) && |q| < m0
    ensures forall m: nat :: m <= |q| ==> Along(q, v, p, m) < |q|
  {
    hide Ring, Next;
    RingStep(q, v, Along(q, v, p, m0));
    forall m: nat | m <= |q| ensures Along(q, v, p, m) < |q| {
      if !On(q, v, Along(q, v, p, m)) { OffAfter(q, v, p, m, m0); }
    }
  }

  /** Around the repetition often enough. */
  lemma {:induction false} FarAround(q: Code, v: View, p: nat, a: nat, b: nat, m0: nat) returns (n: nat)
    requires a < b <= |q| && Along(q, v, p, a) == Along(q, v, p, b)
    ensures m0 <= n && |q| <= n && Along(q, v, p, n) == Along(q, v, p, |q|)
    decreases m0
  {
    if m0 == 0 {
      n := |q|;
    } else {
      var m := FarAround(q, v, p, a, b, m0 - 1);
      T.AlongAdd(q, v, p, a, m - a);
      T.AlongAdd(q, v, p, b, m - a);
      n := b + (m - a);
    }
  }

  /* ---- A new branch behind a label ---- */

  lemma NewMeets(q0: Code, counter: nat, last: Item, k: nat, i: nat, j: nat)
    requires W.Settled(R.Rewritten(q0, counter)) && K.Meets(q0 + [last], k, i, j)
    ensures j + 1 == |q0|
  {
    var q := q0 + [last];
    if j + 1 < |q0| {
      assert forall g :: i < g < j ==> q0[g] == q[g];
      assert K.Meets(q0, k, i, j);
      K.MeetsApplies(q0, counter, k, i, j);
      assert false;
    }
  }

  /** A match of the longer window has its last hit at the new item. */
  lemma NewHit(q0: Code, counter: nat, last: Item, k: nat, i: nat)
    requires W.Settled(R.Rewritten(q0, counter)) && k < 4 && i <= |q0|
    requires R.Apply(q0 + [last], counter, k, i).Present?
    ensures E.LastHit(q0 + [last], k, i) == |q0|
  {
    var q := q0 + [last];
    X.SpanQuiet(q, counter, k, i);
    var end := E.LastHit(q, k, i) + 1;
    hide R.Apply, E.LastHit;
    if end <= |q0| {
      assert q[i..end] == q0[i..end];
      K.MatchAlike(q, counter, i, q0, counter, i, k, end);
      assert false;
    }
  }

  lemma NewQueued(q0: Code, counter: nat, last: Item)
    requires W.Settled(R.Rewritten(q0, counter)) && S.Tidy(q0 + [last], counter)
    requires q0 != [] && q0[|q0| - 1].Label? && K.Tests(last)
    ensures var q := q0 + [last];
      && X.Quiet(R.Rewritten(q, counter)) && Queued(q, |q0|, FirstTo(q, 0))
      && (Round(q, FirstTo(q, 0)) <==> Runaway(q))
  {
    var q, e := q0 + [last], |q0|;
    var first := FirstTo(q, 0);
    NewQuiet(q0, counter, last);
    hide W.Settled, R.Apply, Circles, Joins, Below;
    forall k: nat, i: nat, j: nat | K.Meets(q, k, i, j)
      ensures if Kin(q, i, e) then first <= i else j + 1 == e || k == 6
    {
      NewMeets(q0, counter, last, k, i, j);
    }
    forall i | first < i < |q| && Kin(q, i, e)
      ensures Joins(q, ViewOf(q, i), Start(q, i), Start(q, first))
    {
      NewJoins(q0, counter, last, first, i);
    }
    NewRound(q, first);
  }

  lemma NewQuiet(q0: Code, counter: nat, last: Item)
    requires W.Settled(R.Rewritten(q0, counter)) && K.Tests(last)
    ensures X.Quiet(R.Rewritten(q0 + [last], counter))
  {
    var q := q0 + [last];
    forall k: nat, at: nat | k < 4 && at < |q| ensures R.Apply(q, counter, k, at).Absent? {
      if R.Apply(q, counter, k, at).Present? {
        NewHit(q0, counter, last, k, at);
        X.SpanQuiet(q, counter, k, at);
        assert false;
      }
    }
    hide R.Apply, W.Settled;
    assert forall k: nat :: k < 4 ==> W.Idle(R.Rewritten(q, counter), k);
  }

  /** The first one's label is the one before the new branch. */
  lemma NewStart(q: Code, i: nat)
    requires UniqueLabels(q) && 2 <= |q| && q[|q| - 2].Label? && i < |q| - 1 && K.Tests(q[i])
    requires q[i].a == Id(q[|q| - 2].name)
    ensures Start(q, i) == |q| - 1
  {
    S.UniqueFind(q, |q| - 2);
  }

  lemma NewJoins(q0: Code, counter: nat, last: Item, first: nat, i: nat)
    requires W.Settled(R.Rewritten(q0, counter)) && S.Tidy(q0 + [last], counter)
    requires q0 != [] && q0[|q0| - 1].Label? && K.Tests(last) && first == FirstTo(q0 + [last], 0)
    requires first < i && Kin(q0 + [last], i, |q0|)
    ensures var q := q0 + [last]; Joins(q, ViewOf(q, i), Start(q, i), Start(q, first))
  {
    var q := q0 + [last];
    hide W.Settled, Below, UniqueLabels, Target, Joins;
    if q[i].a == Id(q[|q| - 2].name) && i < |q0| {
      NewStart(q, i);
      NewStart(q, first);
    } else if i < |q0| && On(q, ViewOf(q, i), Start(q, i)) {
      StartMeets(q, i);
      NewMeets(q0, counter, last, K.SetFor(q[i], q[Start(q, i)]), i, Start(q, i) - 1);
      assert false;
    }
    JoinsNow(q, ViewOf(q, i), Start(q, i), Start(q, first));
  }

  lemma NewRound(q: Code, first: nat)
    requires UniqueLabels(q) && 2 <= |q| && q[|q| - 2].Label? && K.Tests(q[|q| - 1]) && first == FirstTo(q, 0)
    ensures K.Tests(q[first]) && (Round(q, first) <==> Runaway(q))
  {
    hide UniqueLabels, Circles;
    if first < |q| - 1 {
      NewStart(q, first);
      LoopsExact(q, ViewOf(q, first), |q| - 1);
    } else {
      OffNowhere(q, ViewOf(q, first), Start(q, first));
    }
  }

  /* ---- Any other item ---- */

  /** No branch can be retargeted, except that brtf may be copied. */
  ghost predicate OnlyForks(q: Code) { forall k: nat, i: nat, j: nat :: K.Meets(q, k, i, j) ==> k == 6 }

  lemma OnlyForksNoRing(q: Code)
    requires UniqueLabels(q) && OnlyForks(q)
    ensures !HasRing(q)
  {
    hide Ring, UniqueLabels;
    if HasRing(q) {
      var b :| 0 <= b < |q| && K.Tests(q[b]) && Ring(q, ViewOf(q, b), Start(q, b));
      RingStep(q, ViewOf(q, b), Start(q, b));
      StartMeets(q, b);
      assert false;
    }
  }

  lemma ForkMeets(q: Code, counter: nat, i: nat, rw: Sim.Rewrite, k2: nat, i2: nat, j2: nat)
    requires i < |q| && S.Edits(q, counter, 6, i, rw) && S.Tidy(q, counter) && OnlyForks(q)
    requires Sim.Inside(rw, q) && K.Meets(Sim.After(rw, q), k2, i2, j2)
    ensures k2 == 6
  {
    ThreadEdit(q, counter, 6, i, rw);
    hide S.Edits, Sim.After, UniqueLabels, Below;
    Sim.ThreadInstr(rw, q);
    Q.OriginPos(rw, q, i2);
    var x := S.Origin(rw, i2);
    AlikeItem(q, counter, 6, i, rw, x);
    if x != i { var l := Q.MeetsElsewhere(q, counter, 6, i, rw, x, k2, j2); }
  }

  lemma TurnForks(w: W.Window, k: nat)
    requires k < R.SetCount && S.Tidy(w.queue, w.counter) && X.Quiet(w) && OnlyForks(w.queue)
    ensures X.Quiet(W.Turn(w, k)) && OnlyForks(W.Turn(w, k).queue)
  {
    var at := W.FirstAt(w, k, 0);
    W.TurnIdle(w, k);
    hide R.Apply, UniqueLabels, Below;
    if at < |w.queue| {
      var rw := S.WindowEdit(w.queue, w.counter, k, at);
      ThreadEdit(w.queue, w.counter, k, at, rw);
      EditShape(w.queue, w.counter, k, at, rw);
      X.MeetsOf(w.queue, w.counter, k, at, rw);
      hide Retargets, S.Edits, Sim.After;
      X.QuietKept(w, k, at, rw, W.Turn(w, k).counter);
      forall k2: nat, i: nat, j: nat | K.Meets(Sim.After(rw, w.queue), k2, i, j) ensures k2 == 6 {
        ForkMeets(w.queue, w.counter, at, rw, k2, i, j);
      }
    }
  }

  /** Swaps and concatenations that match have no label and no branch behind them. */
  ghost predicate TailCalm(w: W.Window) {
    && (forall k: nat, i: nat, j: nat :: !K.Meets(w.queue, k, i, j))
    && forall k: nat, i: nat :: k < 4 && i < |w.queue| && R.Apply(w.queue, w.counter, k, i).Present?
         ==> X.NoHazards(w.queue, i, |w.queue|)
  }

  /** The two windows are alike up to a position, and have no labels or branches behind it. */
  ghost predicate SameFront(q: Code, q': Code, at: nat) {
    && at <= |q| && at <= |q'| && q[..at] == q'[..at]
    && X.NoHazards(q, at, |q|) && X.NoHazards(q', at, |q'|)
  }

  lemma FrontItem(q: Code, q': Code, at: nat, g: nat)
    requires SameFront(q, q', at) && g < at
    ensures q[g] == q'[g]
  {
    assert q[g] == q[..at][g] && q'[g] == q'[..at][g];
  }

  lemma FrontMeets(q: Code, q': Code, at: nat, k: nat, i: nat, j: nat)
    requires SameFront(q, q', at) && K.Meets(q', k, i, j)
    ensures K.Meets(q, k, i, j)
  {
    assert R.Hazardous(q'[j + 1]);
    forall g | 0 <= g <= j + 1 ensures g < at && q[g] == q'[g] {
      FrontItem(q, q', at, g);
    }
  }

  lemma FrontHazards(w: W.Window, w': W.Window, at: nat, k: nat, i: nat)
    requires SameFront(w.queue, w'.queue, at) && TailCalm(w)
    requires k < 4 && i < |w'.queue| && R.Apply(w'.queue, w'.counter, k, i).Present?
    ensures X.NoHazards(w'.queue, i, |w'.queue|)
  {
    var (q, q') := (w.queue, w'.queue);
    X.SpanQuiet(q', w'.counter, k, i);
    var end := E.LastHit(q', k, i) + 1;
    hide R.Apply, E.LastHit, R.Hazardous;
    if end <= at {
      assert q'[i..end] == q'[..at][i..end] == q[..at][i..end] == q[i..end];
      K.MatchAlike(q', w'.counter, i, q, w.counter, i, k, end);
    }
    forall g | i <= g < |q'| ensures !R.Hazardous(q'[g]) {
      if g < at && end <= at { FrontItem(q, q', at, g); }
    }
  }

  lemma FrontCalm(w: W.Window, w': W.Window, at: nat)
    requires SameFront(w.queue, w'.queue, at) && TailCalm(w)
    ensures TailCalm(w')
  {
    hide R.Apply, K.Meets, SameFront, X.NoHazards;
    forall k: nat, i: nat, j: nat ensures !K.Meets(w'.queue, k, i, j) {
      if K.Meets(w'.queue, k, i, j) { FrontMeets(w.queue, w'.queue, at, k, i, j); }
    }
    forall k: nat, i: nat | k < 4 && i < |w'.queue| && R.Apply(w'.queue, w'.counter, k, i).Present?
      ensures X.NoHazards(w'.queue, i, |w'.queue|)
    {
      FrontHazards(w, w', at, k, i);
    }
  }

  lemma EditFront(q: Code, counter: nat, k: nat, at: nat, rw: Sim.Rewrite)
    requires k < 4 && at < |q| && S.Edits(q, counter, k, at, rw) && X.NoHazards(q, at, |q|)
    ensures Sim.Inside(rw, q) && SameFront(q, Sim.After(rw, q), at)
  {
    EditShape(q, counter, k, at, rw);
    var q' := Sim.After(rw, q);
    assert q'[..at] == q[..at];
    forall g | at <= g < |q'| ensures !R.Hazardous(q'[g]) {
      if rw.Pair? {
        assert q'[g] == if g < rw.j - 1 then q[g + 1] else q[g + 2];
      } else {
        assert q'[g] == if g == at then rw.item else q[g];
      }
    }
  }

  lemma TurnCalm(w: W.Window, k: nat)
    requires k < R.SetCount && S.Tidy(w.queue, w.counter) && TailCalm(w)
    ensures TailCalm(W.Turn(w, k))
  {
    var at := W.FirstAt(w, k, 0);
    hide R.Apply, UniqueLabels, Below, K.Meets, X.NoHazards;
    if at < |w.queue| {
      var rw := S.WindowEdit(w.queue, w.counter, k, at);
      EditShape(w.queue, w.counter, k, at, rw);
      if k >= 4 {
        ThreadEdit(w.queue, w.counter, k, at, rw);
        X.MeetsOf(w.queue, w.counter, k, at, rw);
        assert false;
      } else {
        hide S.Edits, Sim.After;
        EditFront(w.queue, w.counter, k, at, rw);
        FrontCalm(w, W.Turn(w, k), at);
      }
    }
  }

  /** Nothing that could make a ring is ever there. */
  ghost predicate Harmless(w: W.Window) {
    S.Tidy(w.queue, w.counter) && (TailCalm(w) || (X.Quiet(w) && OnlyForks(w.queue)))
  }

  lemma {:induction false} OnwardHarmless(w: W.Window, k: nat)
    requires Harmless(w)
    ensures Harmless(W.Onward(w, k))
    decreases R.SetCount - k
  {
    hide S.Tidy, W.Turn, X.Quiet, OnlyForks, TailCalm;
    if k < R.SetCount {
      TurnTidy(w, k);
      if TailCalm(w) { TurnCalm(w, k); } else { TurnForks(w, k); }
      OnwardHarmless(W.Turn(w, k), k + 1);
    }
  }

  lemma {:induction false} PassesHarmless(w: W.Window, n: nat)
    requires Harmless(w)
    ensures !HasRing(W.Passes(w, n).queue)
    decreases n
  {
    if n == 0 {
      hide HasRing, R.Apply, K.Meets;
      OnlyForksNoRing(w.queue);
    } else {
      hide Harmless, W.Onward, HasRing;
      OnwardHarmless(w, 0);
      PassesHarmless(W.Pass(w), n - 1);
    }
  }

  lemma HarmlessEnds(w: W.Window)
    requires Harmless(w)
    ensures W.Ends(w)
  {
    hide HasRing, TailCalm, X.Quiet, OnlyForks, W.Ends, W.Pass;
    forall n: nat ensures !HasRing(W.Passes(w, n).queue) {
      PassesHarmless(w, n);
    }
    T.EndsUnlessRing(w);
  }

  /** Any item but a brt or brf behind a label. */
  lemma OtherHarmless(q0: Code, counter: nat, last: Item)
    requires W.Settled(R.Rewritten(q0, counter)) && S.Tidy(q0 + [last], counter)
    requires !(q0 != [] && q0[|q0| - 1].Label? && K.Tests(last))
    ensures Harmless(R.Rewritten(q0 + [last], counter))
  {
    var q := q0 + [last];
    hide W.Settled, R.Apply, UniqueLabels, Below;
    forall k: nat, i: nat, j: nat | K.Meets(q, k, i, j) ensures k == 6 && K.Forks(last) {
      NewMeets(q0, counter, last, k, i, j);
    }
    forall k: nat, i: nat | k < 4 && i < |q| && R.Apply(q, counter, k, i).Present?
      ensures X.NoHazards(q, i, |q|) && !K.Forks(last)
    {
      NewHit(q0, counter, last, k, i);
      X.SpanQuiet(q, counter, k, i);
    }
    if K.Forks(last) {
      assert forall k: nat :: k < 4 ==> W.Idle(R.Rewritten(q, counter), k);
    }
  }

  /** What one more item does to a settled window: the optimiser comes to rest again if
      and only if the window is no runaway. */
  lemma EndsExact(q0: Code, counter: nat, last: Item)
    requires W.Settled(R.Rewritten(q0, counter)) && S.Tidy(q0 + [last], counter)
    ensures W.Ends(R.Rewritten(q0 + [last], counter)) <==> !Runaway(q0 + [last])
  {
    var q := q0 + [last];
    hide W.Settled, UniqueLabels, Below, Harmless, Loops, X.Quiet, Circles, Joins, W.Ends;
    if q0 != [] && q0[|q0| - 1].Label? && K.Tests(last) {
      NewQueued(q0, counter, last);
      X.QueuedExact(R.Rewritten(q, counter), |q0|, FirstTo(q, 0));
    } else {
      OtherHarmless(q0, counter, last);
      HarmlessEnds(R.Rewritten(q, counter));
    }
  }
}
