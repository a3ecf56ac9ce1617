/** What an application does to the chains that the branches of one condition follow:
    they stay, or get shorter, or are cut off behind an opposite branch. */
module KeyholeChains {
  import opened Assembly
  import opened KeyholeRing
  import Sim = Simulation
  import R = KeyholeRules
  import S = KeyholeSound
  import K = KeyholeMatch
  import T = KeyholeTermination

  /** A branch on the condition and register number of the one at e. */
  predicate Kin(q: Code, i: nat, e: nat) {
    && i < |q| && e < |q| && K.Tests(q[i]) && K.Tests(q[e])
    && q[i].op == q[e].op && q[i].b.number == q[e].b.number
  }

  /** The chain comes to a ring in m steps, opposite branches included. */
  ghost predicate Reaches(q: Code, v: View, p: nat, m: nat)
    decreases m
  {
    if m == 0 then Ring(q, v, p) else On(q, v, p) && Reaches(q, v, Next(q, v, p), m - 1)
  }

  ghost predicate Circles(q: Code, v: View, p: nat) { exists m: nat :: Reaches(q, v, p, m) }

  lemma CirclesStep(q: Code, v: View, p: nat)
    ensures Circles(q, v, p) <==> On(q, v, p) && Circles(q, v, Next(q, v, p))
  {
    hide Next;
    if Circles(q, v, p) {
      var m: nat :| Reaches(q, v, p, m);
      if m == 0 {
        RingStep(q, v, p);
        assert Reaches(q, v, Next(q, v, p), 0);
      } else {
        assert Reaches(q, v, Next(q, v, p), m - 1);
      }
    }
    if On(q, v, p) && Circles(q, v, Next(q, v, p)) {
      var m: nat :| Reaches(q, v, Next(q, v, p), m);
      assert Reaches(q, v, p, m + 1);
    }
  }

  /* ---- Branch edits, item by item ---- */

  /** The same label or the same branch, up to the kind of its register. */
  predicate Alike(a: Item, b: Item) {
    && (a.Label? <==> b.Label?) && (a.Label? ==> a == b)
    && (K.Tests(a) <==> K.Tests(b)) && (K.Jumps(a) <==> K.Jumps(b)) && (K.Forks(a) <==> K.Forks(b))
    && (a.Instr? ==> a.op == b.op && a.a == b.a)
    && (K.Tests(a) ==> a.b.number == b.b.number)
  }

  lemma ThreadEdit(q: Code, counter: nat, k: nat, i: nat, rw: Sim.Rewrite)
    requires 4 <= k < R.SetCount && i < |q| && S.Edits(q, counter, k, i, rw)
    ensures Retargets(q, counter, k, i, rw) && rw.Thread? && rw.i == i
    ensures Sim.Shape(rw, q) && Sim.Inside(rw, q)
    ensures |Sim.After(rw, q)| == |q| + |rw.added| == Sim.Pos(rw, |q|)
  {
    EditRetargets(q, counter, k, i, rw);
    EditShape(q, counter, k, i, rw);
    hide S.Edits, R.Apply;
    Sim.ThreadSize(rw, q);
  }

  lemma AlikeItem(q: Code, counter: nat, k: nat, i: nat, rw: Sim.Rewrite, x: nat)
    requires 4 <= k < R.SetCount && i < |q| && S.Edits(q, counter, k, i, rw) && x < |q|
    ensures rw.Thread? && Sim.Inside(rw, q) && Sim.Pos(rw, x) < |Sim.After(rw, q)|
    ensures x != i ==> Alike(Sim.After(rw, q)[Sim.Pos(rw, x)], q[x])
    ensures x == i ==> Sim.After(rw, q)[Sim.Pos(rw, x)] == rw.s
  {
    hide *;
    ThreadEdit(q, counter, k, i, rw);
    SecondAlike(q, counter, k, i, rw);
    AlikeSame(q[x]);
    Sim.ThreadItem(rw, q, x);
  }

  lemma AlikeSame(item: Item)
    ensures Alike(item, item)
  {
  }

  lemma SecondAlike(q: Code, counter: nat, k: nat, i: nat, rw: Sim.Rewrite)
    requires Retargets(q, counter, k, i, rw)
    ensures Alike(rw.t, q[rw.j + 1])
  {
  }

  /** A view from a branch of the condition. */
  predicate Views(q: Code, e: nat, v: View) { Kin(q, v.at, e) && v == ViewOf(q, v.at) }

  /** An application of a branch rule set either retargets a branch of the condition,
      or concerns the branch at e, or copies a brtf. */
  ghost predicate Turns(q: Code, counter: nat, k: nat, i: nat, rw: Sim.Rewrite, e: nat) {
    && 4 <= k < R.SetCount && i < |q| && S.Edits(q, counter, k, i, rw) && S.Tidy(q, counter)
    && e < |q| && K.Tests(q[e]) && rw.Thread?
    && (!Kin(q, i, e) ==> rw.j + 1 == e || k == 6)
  }

  lemma TurnKinds(q: Code, counter: nat, k: nat, i: nat, rw: Sim.Rewrite, e: nat)
    requires Turns(q, counter, k, i, rw, e)
    ensures Retargets(q, counter, k, i, rw)
    ensures Kin(q, i, e) && k <= 8 ==> k >= 7 && rw.added == [] && Kin(q, rw.j + 1, e)
    ensures Kin(q, i, e) && k > 8 ==>
      && rw.added == [Label(Gen(counter))] && rw.j + 1 != e
      && K.Tests(q[rw.j + 1]) && q[rw.j + 1].b.number == q[e].b.number && q[rw.j + 1].op != q[e].op
    ensures !Kin(q, i, e) ==>
      && k != 7 && k != 8 && (k == 6 ==> rw.added == [] && !K.Tests(q[rw.j + 1]))
      && (k != 6 ==> rw.j + 1 == e && rw.added == [Label(Gen(counter))])
      && (K.Tests(q[i]) ==> q[i].op != q[e].op)
  {
    ThreadEdit(q, counter, k, i, rw);
    hide S.Edits, S.Tidy, Sim.Shape, Sim.Inside, Sim.After, Sim.Pos;
    if Kin(q, i, e) { KinPartners(q, counter, k, i, rw, e); } else { OtherPartners(q, counter, k, i, rw, e); }
    hide Retargets, K.Partners, K.Tests, K.Jumps, K.Forks;
  }

  lemma KinPartners(q: Code, counter: nat, k: nat, i: nat, rw: Sim.Rewrite, e: nat)
    requires Retargets(q, counter, k, i, rw) && Kin(q, i, e)
    ensures K.Tests(q[rw.j + 1]) && q[rw.j + 1].b.number == q[e].b.number
    ensures k <= 8 ==> k >= 7 && rw.added == [] && Kin(q, rw.j + 1, e)
    ensures k > 8 ==> rw.added == [Label(Gen(counter))] && rw.j + 1 != e && q[rw.j + 1].op != q[e].op
  {
  }

  lemma OtherPartners(q: Code, counter: nat, k: nat, i: nat, rw: Sim.Rewrite, e: nat)
    requires Retargets(q, counter, k, i, rw) && !Kin(q, i, e) && e < |q| && K.Tests(q[e])
    requires rw.j + 1 == e || k == 6
    ensures k != 7 && k != 8 && (K.Tests(q[i]) ==> q[i].op != q[e].op)
    ensures k == 6 ==> rw.added == [] && !K.Tests(q[rw.j + 1])
    ensures k != 6 ==> rw.j + 1 == e && rw.added == [Label(Gen(counter))]
  {
  }

  /** Where the view's chains do not meet the edit they go on as before. */
  predicate Elsewhere(q: Code, k: nat, i: nat, rw: Sim.Rewrite, e: nat, x: nat)
    requires rw.Thread?
  {
    Kin(q, i, e) ==> x != i && (k > 8 ==> x != rw.j + 1)
  }

  lemma PosNext(q: Code, counter: nat, k: nat, i: nat, rw: Sim.Rewrite, e: nat, x: nat)
    requires Turns(q, counter, k, i, rw, e) && x < |q| && Elsewhere(q, k, i, rw, e, x) && !Kin(q, x, e)
    requires K.Tests(q[x])
    ensures Sim.Pos(rw, x + 1) == Sim.Pos(rw, x) + 1
  {
    TurnKinds(q, counter, k, i, rw, e);
    hide S.Edits, S.Tidy;
  }

  lemma StepElsewhere(q: Code, counter: nat, k: nat, i: nat, rw: Sim.Rewrite, e: nat, v: View, x: nat)
    requires Turns(q, counter, k, i, rw, e) && Views(q, e, v) && x <= |q| && Elsewhere(q, k, i, rw, e, x)
    ensures Sim.Inside(rw, q) && Sim.Pos(rw, x) <= |Sim.After(rw, q)|
    ensures On(Sim.After(rw, q), Moves(rw, v), Sim.Pos(rw, x)) <==> On(q, v, x)
    ensures Same(Sim.After(rw, q), Moves(rw, v), Sim.Pos(rw, x)) <==> Same(q, v, x)
    ensures Next(Sim.After(rw, q), Moves(rw, v), Sim.Pos(rw, x)) == Sim.Pos(rw, Next(q, v, x))
  {
    ThreadEdit(q, counter, k, i, rw);
    TurnKinds(q, counter, k, i, rw, e);
    hide S.Edits, UniqueLabels, Below, Sim.After, Sim.Pos, Sim.Shape, Target, Retargets;
    if x < |q| {
      AlikeItem(q, counter, k, i, rw, x);
      EditedTests(q, counter, k, i, rw, x);
      if Same(q, v, x) {
        StepKept(q, counter, k, i, rw, v, x);
      } else if On(q, v, x) {
        PosNext(q, counter, k, i, rw, e, x);
      }
    } else {
      PosEnd(rw, q);
    }
  }

  lemma EditedTests(q: Code, counter: nat, k: nat, i: nat, rw: Sim.Rewrite, x: nat)
    requires 4 <= k < R.SetCount && i < |q| && S.Edits(q, counter, k, i, rw) && x < |q|
    ensures rw.Thread? && Sim.Inside(rw, q) && Sim.Pos(rw, x) < |Sim.After(rw, q)|
    ensures var item := Sim.After(rw, q)[Sim.Pos(rw, x)];
      && (K.Tests(item) <==> K.Tests(q[x])) && (item.Label? <==> q[x].Label?)
      && (K.Tests(item) ==> item.op == q[x].op && item.b.number == q[x].b.number)
  {
    ThreadEdit(q, counter, k, i, rw);
    AlikeItem(q, counter, k, i, rw, x);
    hide S.Edits, Sim.After, Sim.Shape;
  }

  /* ---- At the edit ---- */

  /** The retargeted branch leads where the second one led on to. */
  lemma Shortcut(q: Code, counter: nat, k: nat, i: nat, rw: Sim.Rewrite, e: nat, v: View)
    requires Turns(q, counter, k, i, rw, e) && Views(q, e, v) && Kin(q, i, e) && v.at <= i
    ensures Sim.Inside(rw, q) && i < rw.j && Sim.Pos(rw, i) == i
    ensures Same(q, v, i) && Next(q, v, i) == rw.j + 1 && On(q, v, rw.j + 1)
    ensures Same(Sim.After(rw, q), Moves(rw, v), i)
    ensures Next(Sim.After(rw, q), Moves(rw, v), i) == Sim.Pos(rw, Next(q, v, rw.j + 1))
  {
    ThreadEdit(q, counter, k, i, rw);
    TurnKinds(q, counter, k, i, rw, e);
    RetargetedItem(q, counter, k, i, rw);
    LabelPlace(q, counter, k, i, rw, v.at);
    hide S.Edits, UniqueLabels, Below, Sim.After, Sim.Shape, Target;
    if k <= 8 {
      ShortTarget(q, counter, k, i, rw, v.at);
    } else {
      T.NewLabelPlace(q, counter, k, i, rw, v.at);
    }
  }

  /** Behind an opposite branch that was passed, the new label cuts the way off. */
  lemma CutOff(q: Code, counter: nat, k: nat, i: nat, rw: Sim.Rewrite, e: nat, v: View)
    requires Turns(q, counter, k, i, rw, e) && Views(q, e, v) && Kin(q, i, e) && k > 8
    ensures Sim.Inside(rw, q) && Sim.Pos(rw, rw.j + 1) == rw.j + 1
    ensures On(q, v, rw.j + 1) && !Same(q, v, rw.j + 1) && Next(q, v, rw.j + 1) == rw.j + 2
    ensures var q', v' := Sim.After(rw, q), Moves(rw, v);
      && On(q', v', rw.j + 1) && !Same(q', v', rw.j + 1) && Next(q', v', rw.j + 1) == rw.j + 2
      && rw.j + 2 < |q'| && q'[rw.j + 2].Label? && !On(q', v', rw.j + 2)
  {
    TurnKinds(q, counter, k, i, rw, e);
    EditedTests(q, counter, k, i, rw, rw.j + 1);
    T.NewLabelPlace(q, counter, k, i, rw, i);
    hide S.Edits, UniqueLabels, Below, Sim.After, Target;
  }

  /** The view's chains cannot use the place behind the opposite branch that is passed:
      a label stands there, or the passing branch is the view's own. */
  predicate Safe(q: Code, k: nat, i: nat, rw: Sim.Rewrite, e: nat, v: View)
    requires rw.Thread?
  {
    Kin(q, i, e) && k > 8 ==> i == v.at || (rw.j + 2 < |q| && q[rw.j + 2].Label?)
  }

  lemma OffNowhere(q: Code, v: View, p: nat)
    requires !On(q, v, p)
    ensures !Circles(q, v, p) && !Ring(q, v, p)
  {
    CirclesStep(q, v, p);
    assert Ring(q, v, p) ==> Reaches(q, v, p, 0);
  }

  lemma RingCircles(q: Code, v: View, p: nat)
    requires Ring(q, v, p)
    ensures Circles(q, v, p)
  {
    assert Reaches(q, v, p, 0);
  }

  /** From the retargeted branch nothing goes on when its new label is dead. */
  lemma DeadEnd(q: Code, counter: nat, k: nat, i: nat, rw: Sim.Rewrite, e: nat, v: View)
    requires Turns(q, counter, k, i, rw, e) && Views(q, e, v) && Kin(q, i, e) && k > 8 && v.at <= i
    requires rw.j + 2 < |q| && q[rw.j + 2].Label?
    ensures Sim.Inside(rw, q) && Sim.Pos(rw, i) == i
    ensures !Circles(q, v, i) && !Circles(q, v, rw.j + 1)
    ensures !On(Sim.After(rw, q), Moves(rw, v), Next(Sim.After(rw, q), Moves(rw, v), i))
    ensures !Circles(Sim.After(rw, q), Moves(rw, v), i)
  {
    hide S.Edits, UniqueLabels, Below, Sim.After, Circles, Next, Ring, S.Tidy;
    Shortcut(q, counter, k, i, rw, e, v);
    CutOff(q, counter, k, i, rw, e, v);
    EditedTests(q, counter, k, i, rw, rw.j + 2);
    OffNowhere(q, v, rw.j + 2);
    CirclesStep(q, v, rw.j + 1);
    CirclesStep(q, v, i);
    OffNowhere(Sim.After(rw, q), Moves(rw, v), Next(Sim.After(rw, q), Moves(rw, v), i));
    CirclesStep(Sim.After(rw, q), Moves(rw, v), i);
  }

  /* ---- Rings and chains to them ---- */

  /** The chain goes nowhere near the passed branch. */
  ghost predicate Avoids(q: Code, v: View, p: nat, m: nat, x: nat) {
    forall n: nat :: n <= m ==> Along(q, v, p, n) != x
  }

  lemma AvoidsNext(q: Code, v: View, p: nat, m: nat, x: nat)
    requires Avoids(q, v, p, m, x)
    ensures p != x && (m > 0 ==> Avoids(q, v, Next(q, v, p), m - 1, x))
  {
    hide Next;
    assert Along(q, v, p, 0) == p;
    forall n: nat | n <= m - 1 ensures Along(q, v, Next(q, v, p), n) != x {
      assert Along(q, v, p, n + 1) == Along(q, v, Next(q, v, p), n);
    }
  }

  /** A chain to a ring stays one. */
  lemma {:induction false} CirclesOn(q: Code, counter: nat, k: nat, i: nat, rw: Sim.Rewrite, e: nat, v: View,
                                     x: nat, m: nat)
    requires Turns(q, counter, k, i, rw, e) && Views(q, e, v) && v.at < x && Reaches(q, v, x, m)
    requires Kin(q, i, e) && k > 8 ==> Avoids(q, v, x, m, rw.j + 1)
    ensures Sim.Inside(rw, q) && Circles(Sim.After(rw, q), Moves(rw, v), Sim.Pos(rw, x))
    decreases m
  {
    hide S.Edits, UniqueLabels, Below, Sim.After, Sim.Pos, Next, Ring, Circles, Avoids, Retargets;
    ThreadEdit(q, counter, k, i, rw);
    if m == 0 {
      RingKept(q, counter, k, i, rw, v, x);
      RingCircles(Sim.After(rw, q), Moves(rw, v), Sim.Pos(rw, x));
    } else {
      if Kin(q, i, e) && k > 8 { AvoidsNext(q, v, x, m, rw.j + 1); }
      CirclesStep(Sim.After(rw, q), Moves(rw, v), Sim.Pos(rw, x));
      if Kin(q, i, e) && x == i {
        Shortcut(q, counter, k, i, rw, e, v);
        if k > 8 {
          AvoidsNext(q, v, rw.j + 1, m - 1, rw.j + 1);
          assert false;
        }
        if m == 1 {
          RingStep(q, v, rw.j + 1);
          CirclesOn(q, counter, k, i, rw, e, v, Next(q, v, rw.j + 1), 0);
        } else {
          CirclesOn(q, counter, k, i, rw, e, v, Next(q, v, rw.j + 1), m - 2);
        }
      } else {
        StepElsewhere(q, counter, k, i, rw, e, v, x);
        CirclesOn(q, counter, k, i, rw, e, v, Next(q, v, x), m - 1);
      }
    }
  }

  /** A chain to a ring was one before, as nothing but a dead label was added. */
  lemma {:induction false} RingBackFor(q: Code, counter: nat, k: nat, i: nat, rw: Sim.Rewrite, e: nat, v: View,
                                       x: nat, m: nat)
    requires Turns(q, counter, k, i, rw, e) && Views(q, e, v) && v.at < x <= |q| && Safe(q, k, i, rw, e, v)
    requires Sim.Inside(rw, q) && Ring(Sim.After(rw, q), Moves(rw, v), Sim.Pos(rw, x))
    ensures Same(q, v, Along(q, v, x, m))
    decreases m
  {
    hide S.Edits, UniqueLabels, Below, Sim.After, Sim.Pos, Next, Ring, Circles, Retargets;
    var q', v' := Sim.After(rw, q), Moves(rw, v);
    RingStep(q', v', Sim.Pos(rw, x));
    if Kin(q, i, e) && x == i {
      Shortcut(q, counter, k, i, rw, e, v);
      if k > 8 {
        DeadEnd(q, counter, k, i, rw, e, v);
        RingCircles(q', v', i);
        assert false;
      } else {
        TurnKinds(q, counter, k, i, rw, e);
        if m > 1 { RingBackFor(q, counter, k, i, rw, e, v, Next(q, v, rw.j + 1), m - 2); }
      }
    } else {
      if Kin(q, i, e) && k > 8 && x == rw.j + 1 {
        CutOff(q, counter, k, i, rw, e, v);
        assert false;
      } else {
        StepElsewhere(q, counter, k, i, rw, e, v, x);
        if m > 0 { RingBackFor(q, counter, k, i, rw, e, v, Next(q, v, x), m - 1); }
      }
    }
  }

  lemma RingBack(q: Code, counter: nat, k: nat, i: nat, rw: Sim.Rewrite, e: nat, v: View, x: nat)
    requires Turns(q, counter, k, i, rw, e) && Views(q, e, v) && v.at < x <= |q| && Safe(q, k, i, rw, e, v)
    requires Sim.Inside(rw, q) && Ring(Sim.After(rw, q), Moves(rw, v), Sim.Pos(rw, x))
    ensures Ring(q, v, x)
  {
    hide S.Edits, UniqueLabels, Below, Sim.After, Sim.Pos, Next, Retargets, Turns, Safe;
    forall m: nat ensures Same(q, v, Along(q, v, x, m)) {
      RingBackFor(q, counter, k, i, rw, e, v, x, m);
    }
  }

  lemma CutOffUnreached(q: Code, counter: nat, k: nat, i: nat, rw: Sim.Rewrite, e: nat, v: View, m: nat)
    requires Turns(q, counter, k, i, rw, e) && Views(q, e, v) && Kin(q, i, e) && k > 8 && Sim.Inside(rw, q)
    ensures !Reaches(Sim.After(rw, q), Moves(rw, v), Sim.Pos(rw, rw.j + 1), m)
  {
    hide S.Edits, UniqueLabels, Below, Sim.After, Sim.Pos, Next, Ring, Circles, Same, Retargets, Reaches;
    var q', v' := Sim.After(rw, q), Moves(rw, v);
    CutOff(q, counter, k, i, rw, e, v);
    OffNowhere(q', v', rw.j + 2);
    CirclesStep(q', v', rw.j + 1);
    NotReached(q', v', rw.j + 1, m);
  }

  lemma {:induction false} CirclesBack(q: Code, counter: nat, k: nat, i: nat, rw: Sim.Rewrite, e: nat, v: View,
                                       x: nat, m: nat)
    requires Turns(q, counter, k, i, rw, e) && Views(q, e, v) && v.at < x <= |q| && Safe(q, k, i, rw, e, v)
    requires Sim.Inside(rw, q) && Reaches(Sim.After(rw, q), Moves(rw, v), Sim.Pos(rw, x), m)
    ensures Circles(q, v, x)
    decreases m
  {
    hide S.Edits, UniqueLabels, Below, Sim.After, Sim.Pos, Next, Ring, Circles, Same, Retargets;
    var q', v' := Sim.After(rw, q), Moves(rw, v);
    if m == 0 {
      RingBack(q, counter, k, i, rw, e, v, x);
      RingCircles(q, v, x);
    } else {
      CirclesStep(q, v, x);
      if Kin(q, i, e) && x == i {
        Shortcut(q, counter, k, i, rw, e, v);
        if k > 8 {
          DeadEnd(q, counter, k, i, rw, e, v);
          NotReached(q', v', i, m);
          assert false;
        } else {
          CirclesBack(q, counter, k, i, rw, e, v, Next(q, v, rw.j + 1), m - 1);
          CirclesStep(q, v, rw.j + 1);
        }
      } else if Kin(q, i, e) && k > 8 && x == rw.j + 1 {
        CutOffUnreached(q, counter, k, i, rw, e, v, m);
        assert false;
      } else {
        StepElsewhere(q, counter, k, i, rw, e, v, x);
        CirclesBack(q, counter, k, i, rw, e, v, Next(q, v, x), m - 1);
      }
    }
  }

  lemma NotReached(q: Code, v: View, p: nat, m: nat)
    requires !Circles(q, v, p)
    ensures !Reaches(q, v, p, m)
  {
    hide Reaches;
  }
}
