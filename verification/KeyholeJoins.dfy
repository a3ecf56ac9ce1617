/** All branches of one condition follow the first of them: they come to where it stands,
    or to a place that is cut off. */
module KeyholeJoins {
  import opened Assembly
  import opened KeyholeRing
  import opened KeyholeChains
  import Sim = Simulation
  import S = KeyholeSound
  import K = KeyholeMatch

  /** An opposite branch with a label behind it. */
  predicate Blocked(q: Code, v: View, x: nat) {
    On(q, v, x) && !Same(q, v, x) && x + 1 < |q| && q[x + 1].Label?
  }

  /** In m steps on the same condition the chain ends, comes to the goal, or is blocked. */
  predicate JoinsIn(q: Code, v: View, x: nat, goal: nat, m: nat)
    decreases m
  {
    if m == 0 then !On(q, v, x) || x == goal || Blocked(q, v, x)
    else Same(q, v, x) && JoinsIn(q, v, Next(q, v, x), goal, m - 1)
  }

  ghost predicate Joins(q: Code, v: View, x: nat, goal: nat) { exists m: nat :: JoinsIn(q, v, x, goal, m) }

  lemma JoinsNow(q: Code, v: View, x: nat, goal: nat)
    requires !On(q, v, x) || x == goal || Blocked(q, v, x)
    ensures Joins(q, v, x, goal)
  {
    assert JoinsIn(q, v, x, goal, 0);
  }

  lemma JoinsStep(q: Code, v: View, x: nat, goal: nat)
    requires Same(q, v, x) && Joins(q, v, Next(q, v, x), goal)
    ensures Joins(q, v, x, goal)
  {
    var m: nat :| JoinsIn(q, v, Next(q, v, x), goal, m);
    assert JoinsIn(q, v, x, goal, m + 1);
  }

  /** From a branch on the same condition that is not the goal the chain goes on. */
  lemma JoinsOnward(q: Code, v: View, x: nat, goal: nat, m: nat)
    requires JoinsIn(q, v, x, goal, m) && Same(q, v, x) && x != goal
    ensures m > 0 && JoinsIn(q, v, Next(q, v, x), goal, m - 1)
  {
  }

  lemma BlockedKept(q: Code, counter: nat, k: nat, i: nat, rw: Sim.Rewrite, e: nat, v: View, x: nat)
    requires Turns(q, counter, k, i, rw, e) && Views(q, e, v) && Blocked(q, v, x)
    ensures Sim.Inside(rw, q) && Blocked(Sim.After(rw, q), Moves(rw, v), Sim.Pos(rw, x))
  {
    hide S.Edits, UniqueLabels, Below, Sim.After, Sim.Pos, Sim.Shape, Next, Retargets;
    ThreadEdit(q, counter, k, i, rw);
    if Kin(q, i, e) && k > 8 && x == rw.j + 1 {
      CutOff(q, counter, k, i, rw, e, v);
    } else {
      StepElsewhere(q, counter, k, i, rw, e, v, x);
      PosNext(q, counter, k, i, rw, e, x);
      EditedTests(q, counter, k, i, rw, x + 1);
    }
  }

  /** The branch that is retargeted is not the one that all others follow. */
  ghost predicate Behind(q: Code, k: nat, i: nat, rw: Sim.Rewrite, e: nat, goal: nat)
    requires rw.Thread?
  {
    Kin(q, i, e) ==> if k <= 8 then goal != rw.j + 1 else rw.j + 2 < |q| && q[rw.j + 2].Label?
  }

  lemma {:induction false} JoinsKept(q: Code, counter: nat, k: nat, i: nat, rw: Sim.Rewrite, e: nat, v: View,
                                     x: nat, goal: nat, m: nat)
    requires Turns(q, counter, k, i, rw, e) && Views(q, e, v) && v.at < x <= |q|
    requires JoinsIn(q, v, x, goal, m) && Behind(q, k, i, rw, e, goal)
    ensures Sim.Inside(rw, q)
    ensures Joins(Sim.After(rw, q), Moves(rw, v), Sim.Pos(rw, x), Sim.Pos(rw, goal))
    decreases m
  {
    hide S.Edits, UniqueLabels, Below, Sim.After, Sim.Pos, Next, Joins, Retargets, Blocked;
    ThreadEdit(q, counter, k, i, rw);
    var q', v', x', goal' := Sim.After(rw, q), Moves(rw, v), Sim.Pos(rw, x), Sim.Pos(rw, goal);
    if x == goal {
      JoinsNow(q', v', x', goal');
    } else if Blocked(q, v, x) {
      BlockedKept(q, counter, k, i, rw, e, v, x);
      JoinsNow(q', v', x', goal');
    } else if Kin(q, i, e) && x == i {
      JoinsShortcut(q, counter, k, i, rw, e, v, goal, m);
    } else if Kin(q, i, e) && k > 8 && x == rw.j + 1 {
      CutOff(q, counter, k, i, rw, e, v);
      JoinsStuck(q, v, x, goal, m);
      assert false;
    } else {
      StepElsewhere(q, counter, k, i, rw, e, v, x);
      if m == 0 {
        JoinsNow(q', v', x', goal');
      } else {
        JoinsKept(q, counter, k, i, rw, e, v, Next(q, v, x), goal, m - 1);
        JoinsStep(q', v', x', goal');
      }
    }
  }

  lemma JoinsStuck(q: Code, v: View, x: nat, goal: nat, m: nat)
    requires JoinsIn(q, v, x, goal, m) && On(q, v, x) && !Same(q, v, x) && x != goal
    ensures Blocked(q, v, x)
  {
  }

  /** At the retargeted branch itself. */
  lemma {:induction false} JoinsShortcut(q: Code, counter: nat, k: nat, i: nat, rw: Sim.Rewrite, e: nat, v: View,
                                         goal: nat, m: nat)
    requires Turns(q, counter, k, i, rw, e) && Views(q, e, v) && Kin(q, i, e) && v.at < i && i != goal
    requires JoinsIn(q, v, i, goal, m) && Behind(q, k, i, rw, e, goal)
    ensures Sim.Inside(rw, q)
    ensures Joins(Sim.After(rw, q), Moves(rw, v), Sim.Pos(rw, i), Sim.Pos(rw, goal))
    decreases m, 0
  {
    hide S.Edits, UniqueLabels, Below, Sim.After, Sim.Pos, Next, Joins, Retargets, Blocked;
    ThreadEdit(q, counter, k, i, rw);
    Shortcut(q, counter, k, i, rw, e, v);
    var q', v', goal' := Sim.After(rw, q), Moves(rw, v), Sim.Pos(rw, goal);
    if k > 8 {
      DeadEnd(q, counter, k, i, rw, e, v);
      JoinsNow(q', v', Next(q', v', i), goal');
    } else {
      TurnKinds(q, counter, k, i, rw, e);
      JoinsOnward(q, v, i, goal, m);
      JoinsOnward(q, v, rw.j + 1, goal, m - 1);
      JoinsKept(q, counter, k, i, rw, e, v, Next(q, v, rw.j + 1), goal, m - 2);
    }
    JoinsStep(q', v', i, goal');
  }

  /** The retargeted branch, when it is not the first one: it moves on, or is dead. */
  lemma JoinsRetargeted(q: Code, counter: nat, k: nat, i: nat, rw: Sim.Rewrite, e: nat, goal: nat, m: nat)
    requires Turns(q, counter, k, i, rw, e) && Kin(q, i, e)
    requires JoinsIn(q, ViewOf(q, i), rw.j + 1, goal, m) && Behind(q, k, i, rw, e, goal)
    ensures Sim.Inside(rw, q) && Moves(rw, ViewOf(q, i)) == ViewOf(q, i)
    ensures Joins(Sim.After(rw, q), ViewOf(q, i), Next(Sim.After(rw, q), ViewOf(q, i), i), Sim.Pos(rw, goal))
  {
    hide S.Edits, UniqueLabels, Below, Sim.After, Next, Joins, Retargets, Blocked;
    ThreadEdit(q, counter, k, i, rw);
    var v := ViewOf(q, i);
    Shortcut(q, counter, k, i, rw, e, v);
    var q', goal' := Sim.After(rw, q), Sim.Pos(rw, goal);
    hide Sim.Pos;
    if k > 8 {
      DeadEnd(q, counter, k, i, rw, e, v);
      JoinsNow(q', v, Next(q', v, i), goal');
    } else {
      TurnKinds(q, counter, k, i, rw, e);
      JoinsOnward(q, v, rw.j + 1, goal, m);
      JoinsKept(q, counter, k, i, rw, e, v, Next(q, v, rw.j + 1), goal, m - 1);
    }
  }

  /** When the first branch itself is retargeted, all others follow it on or are cut off. */
  lemma {:induction false} JoinsFollow(q: Code, counter: nat, k: nat, i: nat, rw: Sim.Rewrite, e: nat, v: View,
                                       x: nat, m: nat)
    requires Turns(q, counter, k, i, rw, e) && Views(q, e, v) && Kin(q, i, e) && i < v.at < x <= |q|
    requires JoinsIn(q, v, x, rw.j + 1, m)
    ensures Sim.Inside(rw, q)
    ensures Joins(Sim.After(rw, q), Moves(rw, v), Sim.Pos(rw, x), Sim.Pos(rw, Next(q, ViewOf(q, i), rw.j + 1)))
    decreases m
  {
    hide S.Edits, UniqueLabels, Below, Sim.After, Sim.Pos, Next, Joins, Retargets, Blocked;
    ThreadEdit(q, counter, k, i, rw);
    var q', v', x' := Sim.After(rw, q), Moves(rw, v), Sim.Pos(rw, x);
    var goal' := Sim.Pos(rw, Next(q, ViewOf(q, i), rw.j + 1));
    if Blocked(q, v, x) {
      BlockedKept(q, counter, k, i, rw, e, v, x);
      JoinsNow(q', v', x', goal');
    } else if x == rw.j + 1 {
      FollowOn(q, counter, k, i, rw, e, v);
    } else {
      StepElsewhere(q, counter, k, i, rw, e, v, x);
      if m == 0 {
        JoinsNow(q', v', x', goal');
      } else {
        JoinsFollow(q, counter, k, i, rw, e, v, Next(q, v, x), m - 1);
        JoinsStep(q', v', x', goal');
      }
    }
  }

  /** Where the first branch was. */
  lemma FollowOn(q: Code, counter: nat, k: nat, i: nat, rw: Sim.Rewrite, e: nat, v: View)
    requires Turns(q, counter, k, i, rw, e) && Views(q, e, v) && Kin(q, i, e) && i < v.at
    ensures Sim.Inside(rw, q)
    ensures Joins(Sim.After(rw, q), Moves(rw, v), Sim.Pos(rw, rw.j + 1),
      Sim.Pos(rw, Next(q, ViewOf(q, i), rw.j + 1)))
  {
    hide S.Edits, UniqueLabels, Below, Sim.After, Sim.Pos, Joins, Retargets, Next;
    ThreadEdit(q, counter, k, i, rw);
    TurnKinds(q, counter, k, i, rw, e);
    var q', v' := Sim.After(rw, q), Moves(rw, v);
    var goal' := Sim.Pos(rw, Next(q, ViewOf(q, i), rw.j + 1));
    if k > 8 {
      CutOff(q, counter, k, i, rw, e, v);
      JoinsNow(q', v', Sim.Pos(rw, rw.j + 1), goal');
    } else {
      StepElsewhere(q, counter, k, i, rw, e, v, rw.j + 1);
      SameNext(q, ViewOf(q, i), v, rw.j + 1);
      PosEnd(rw, q);
      JoinsNow(q', v', Sim.Pos(rw, Next(q, v, rw.j + 1)), goal');
      JoinsStep(q', v', Sim.Pos(rw, rw.j + 1), goal');
    }
  }

  /** A view from further behind sees the same, or nothing. */
  lemma SameNext(q: Code, v: View, v': View, x: nat)
    requires v.at < v'.at && v' == v.(at := v'.at) && Same(q, v, x)
    ensures Next(q, v', x) == Next(q, v, x) || Next(q, v', x) == |q|
  {
  }

  /* ---- The window with a new branch at its end ---- */

  /** The last branch stands behind a label; only branches on its condition, none in
      front of `first`, and branches to that label can be retargeted; and all branches
      of the condition follow the first one. */
  ghost predicate Queued(q: Code, e: nat, first: nat) {
    && 0 < e && first <= e && Kin(q, e, e) && Kin(q, first, e) && q[e - 1].Label?
    && (forall p :: e < p < |q| ==> q[p].Label?)
    && (forall k: nat, i: nat, j: nat :: K.Meets(q, k, i, j) ==> if Kin(q, i, e) then first <= i else j + 1 == e || k == 6)
    && (forall i :: first < i < |q| && Kin(q, i, e) ==> Joins(q, ViewOf(q, i), Start(q, i), Start(q, first)))
  }

  /** Whether the first branch's chain comes to a ring. */
  ghost predicate Round(q: Code, first: nat)
    requires first < |q| && K.Tests(q[first])
  {
    Circles(q, ViewOf(q, first), Start(q, first))
  }

  lemma {:induction false} RingLower(q: Code, v: View, v': View, p: nat, m: nat)
    requires v.at < v'.at && v' == v.(at := v'.at) && Ring(q, v', p)
    ensures Same(q, v, Along(q, v, p, m))
    decreases m
  {
    RingStep(q, v', p);
    RingStep(q, v', Next(q, v', p));
    if m > 0 {
      SameNext(q, v, v', p);
      RingLower(q, v, v', Next(q, v', p), m - 1);
    }
  }

  lemma {:induction false} RingJoins(q: Code, v: View, x: nat, goal: nat, m: nat)
    requires Ring(q, v, x) && JoinsIn(q, v, x, goal, m)
    ensures Ring(q, v, goal)
    decreases m
  {
    RingStep(q, v, x);
    if x != goal { RingJoins(q, v, Next(q, v, x), goal, m - 1); }
  }

  /** A ring of the window is on the first branch's chain. */
  lemma RingIsRound(q: Code, e: nat, first: nat)
    requires UniqueLabels(q) && Queued(q, e, first) && HasRing(q)
    ensures Round(q, first)
  {
    hide Ring, Joins, Circles, Queued, K.Meets, K.SetFor, Next, Start;
    var b :| 0 <= b < |q| && K.Tests(q[b]) && Ring(q, ViewOf(q, b), Start(q, b));
    var v := ViewOf(q, b);
    RingStep(q, v, Start(q, b));
    StartMeets(q, b);
    QueuedJoins(q, e, first, b, K.SetFor(q[b], q[Start(q, b)]), Start(q, b) - 1);
    var goal := Start(q, first);
    if b > first {
      RingGoal(q, v, Start(q, b), goal);
      AllLower(q, ViewOf(q, first), v, goal);
    }
    RingCircles(q, ViewOf(q, first), goal);
  }

  /** A branch that leads on to one of its own condition is not before the first one. */
  lemma QueuedJoins(q: Code, e: nat, first: nat, b: nat, k: nat, j: nat)
    requires Queued(q, e, first) && K.Meets(q, k, b, j) && K.Tests(q[b])
    requires K.Tests(q[j + 1]) && q[j + 1].op == q[b].op && q[j + 1].b.number == q[b].b.number
    ensures first <= b && first < |q| && K.Tests(q[first]) && q[first].op == q[b].op && q[first].b.number == q[b].b.number
    ensures first < b ==> Joins(q, ViewOf(q, b), Start(q, b), Start(q, first))
  {
    hide Joins, Start;
    assert Kin(q, b, e);
  }

  lemma AllLower(q: Code, v: View, v': View, p: nat)
    requires v.at < v'.at && v' == v.(at := v'.at) && Ring(q, v', p)
    ensures Ring(q, v, p)
  {
    forall m: nat ensures Same(q, v, Along(q, v, p, m)) { RingLower(q, v, v', p, m); }
  }

  lemma RingGoal(q: Code, v: View, x: nat, goal: nat)
    requires Ring(q, v, x) && Joins(q, v, x, goal)
    ensures Ring(q, v, goal)
  {
    hide Ring;
    var m: nat :| JoinsIn(q, v, x, goal, m);
    RingJoins(q, v, x, goal, m);
  }

  lemma StartMeets(q: Code, b: nat)
    requires UniqueLabels(q) && b < |q| && K.Tests(q[b]) && On(q, ViewOf(q, b), Start(q, b))
    ensures K.Meets(q, K.SetFor(q[b], q[Start(q, b)]), b, Start(q, b) - 1)
  {
    var j := Find(q, q[b].a.name);
    assert forall g :: b < g < j ==> q[g] != q[j];
  }
}
