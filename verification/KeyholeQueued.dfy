/** A window with a new branch at its end, through the passes of the optimiser. */
module KeyholeQueued {
  import opened Assembly
  import opened KeyholeRing
  import opened KeyholeChains
  import opened KeyholeJoins
  import Sim = Simulation
  import R = KeyholeRules
  import S = KeyholeSound
  import K = KeyholeMatch

  /* ---- Matches of the new window were matches of the old one ---- */

  lemma PartnersAlike(k: nat, a: Item, b: Item, a': Item, b': Item)
    requires Alike(a', a) && Alike(b', b)
    ensures K.Partners(k, a', b') <==> K.Partners(k, a, b)
  {
  }

  lemma OriginPos(rw: Sim.Rewrite, q: Code, y: nat)
    requires Sim.Shape(rw, q) && rw.Thread? && y < |Sim.After(rw, q)|
    ensures (rw.added != [] && y == rw.j + 2) || (S.Origin(rw, y) < |q| && Sim.Pos(rw, S.Origin(rw, y)) == y)
  {
    Sim.ThreadSize(rw, q);
    hide Sim.After;
  }

  /** Where a label of the new window with an old name was. */
  lemma OldLabel(q: Code, counter: nat, k: nat, i: nat, rw: Sim.Rewrite, y: nat, name: Name) returns (x: nat)
    requires 4 <= k < R.SetCount && i < |q| && S.Edits(q, counter, k, i, rw) && rw.Thread? && Sim.Inside(rw, q)
    requires y < |Sim.After(rw, q)| && Sim.After(rw, q)[y] == Label(name)
    requires rw.added != [] ==> rw.added[0].name != name
    ensures x < |q| && q[x] == Label(name) && Sim.Pos(rw, x) == y && Sim.Pos(rw, x + 1) == y + 1
  {
    ThreadEdit(q, counter, k, i, rw);
    hide S.Edits, Sim.After, Retargets;
    Sim.ThreadInstr(rw, q);
    OriginPos(rw, q, y);
    x := S.Origin(rw, y);
    AlikeItem(q, counter, k, i, rw, x);
    PosOrder(rw, q, 0, x);
  }

  lemma NewLabelIs(q: Code, counter: nat, k: nat, i: nat, rw: Sim.Rewrite, y: nat)
    requires 4 <= k < R.SetCount && i < |q| && S.Edits(q, counter, k, i, rw) && rw.Thread? && Sim.Inside(rw, q)
    requires Below(q, counter) && y < |Sim.After(rw, q)| && Sim.After(rw, q)[y] == Label(Gen(counter))
    ensures rw.added != [] && y == rw.j + 2
  {
    ThreadEdit(q, counter, k, i, rw);
    hide S.Edits, Sim.After, Retargets;
    OriginPos(rw, q, y);
    var x := S.Origin(rw, y);
    if !(rw.added != [] && y == rw.j + 2) {
      AlikeItem(q, counter, k, i, rw, x);
      NoSuchLabel(q, counter, x);
      assert false;
    }
  }

  lemma NoSuchLabel(q: Code, counter: nat, x: nat)
    requires Below(q, counter) && x < |q|
    ensures q[x] != Label(Gen(counter))
  {
    assert q[x] in q;
    assert Mentions(Label(Gen(counter)), Gen(counter));
  }

  lemma OldTarget(q: Code, counter: nat, k: nat, i: nat, rw: Sim.Rewrite, x: nat)
    requires 4 <= k < R.SetCount && i < |q| && S.Edits(q, counter, k, i, rw) && Below(q, counter)
    requires x < |q| && q[x].Instr? && q[x].a.Id?
    ensures rw.Thread? && (rw.added != [] ==> rw.added[0].name != q[x].a.name)
  {
    ThreadEdit(q, counter, k, i, rw);
    hide S.Edits;
    assert q[x] in q && Mentions(q[x], q[x].a.name);
  }

  /** A match at the retargeted branch: it is of the condition, or there is none. */
  lemma MeetsRetargeted(q: Code, counter: nat, k: nat, i: nat, rw: Sim.Rewrite, e: nat, k2: nat, j2: nat)
    requires Turns(q, counter, k, i, rw, e) && Sim.Inside(rw, q) && K.Meets(Sim.After(rw, q), k2, i, j2)
    requires forall p :: e < p < |q| ==> q[p].Label?
    ensures Kin(q, i, e)
  {
    TurnKinds(q, counter, k, i, rw, e);
    AlikeItem(q, counter, k, i, rw, i);
    ThreadEdit(q, counter, k, i, rw);
    hide S.Edits, UniqueLabels, Sim.After;
    if !Kin(q, i, e) {
      NewLabelIs(q, counter, k, i, rw, j2);
      Sim.ThreadSize(rw, q);
      AlikeItem(q, counter, k, i, rw, rw.j + 2);
      assert false;
    }
  }

  /** A match elsewhere was there before, or concerns a brtf. */
  lemma MeetsElsewhere(q: Code, counter: nat, k: nat, i: nat, rw: Sim.Rewrite, x: nat, k2: nat, j2: nat)
      returns (l: nat)
    requires 4 <= k < R.SetCount && i < |q| && S.Edits(q, counter, k, i, rw) && S.Tidy(q, counter)
    requires rw.Thread? && Sim.Inside(rw, q) && x < |q| && x != i && Sim.Pos(rw, x) < |Sim.After(rw, q)|
    requires K.Meets(Sim.After(rw, q), k2, Sim.Pos(rw, x), j2)
    ensures (K.Meets(q, k2, x, l) && j2 + 1 == Sim.Pos(rw, l + 1)) || (k2 == 6 && !K.Tests(q[x]))
  {
    hide S.Edits, Sim.After, UniqueLabels, Below, Sim.Pos, Sim.Shape;
    ThreadEdit(q, counter, k, i, rw);
    AlikeItem(q, counter, k, i, rw, x);
    OldTarget(q, counter, k, i, rw, x);
    l := OldLabel(q, counter, k, i, rw, j2, q[x].a.name);
    PosOrder(rw, q, x, l);
    PosOrder(rw, q, l + 1, |q|);
    FirstLabel(q, x, l);
    AlikeItem(q, counter, k, i, rw, l + 1);
    if l + 1 == i {
      MeetsAtEdit(q, counter, k, i, rw, Sim.After(rw, q)[Sim.Pos(rw, x)], x, k2);
    } else {
      PartnersAlike(k2, q[x], q[l + 1], Sim.After(rw, q)[Sim.Pos(rw, x)], Sim.After(rw, q)[j2 + 1]);
    }
  }

  lemma MeetsAtEdit(q: Code, counter: nat, k: nat, i: nat, rw: Sim.Rewrite, first: Item, x: nat, k2: nat)
    requires Retargets(q, counter, k, i, rw) && i < |q| && x < |q| && Alike(first, q[x])
    requires K.Partners(k2, first, rw.s)
    ensures K.Partners(k2, q[x], q[i]) || (k2 == 6 && !K.Tests(q[x]))
  {
  }

  lemma FirstLabel(q: Code, x: nat, l: nat)
    requires UniqueLabels(q) && l < |q| && q[l].Label?
    ensures forall g :: x < g < l ==> q[g] != q[l]
  {
  }

  /* ---- The end of the window ---- */

  lemma EndKept(q: Code, counter: nat, k: nat, i: nat, rw: Sim.Rewrite, e: nat)
    requires Turns(q, counter, k, i, rw, e) && 0 < e && q[e - 1].Label? && forall p :: e < p < |q| ==> q[p].Label?
    ensures Sim.Inside(rw, q) && 0 < Sim.Pos(rw, e) < |Sim.After(rw, q)|
    ensures var q', e' := Sim.After(rw, q), Sim.Pos(rw, e);
      && K.Tests(q'[e']) && q'[e'].op == q[e].op && q'[e'].b.number == q[e].b.number
      && q'[e' - 1].Label? && forall p :: e' < p < |q'| ==> q'[p].Label?
  {
    hide S.Edits, Sim.After, UniqueLabels, Below;
    ThreadEdit(q, counter, k, i, rw);
    TurnKinds(q, counter, k, i, rw, e);
    EditedTests(q, counter, k, i, rw, e);
    EditedTests(q, counter, k, i, rw, e - 1);
    PosOrder(rw, q, e - 1, e);
    var q', e' := Sim.After(rw, q), Sim.Pos(rw, e);
    forall p | e' < p < |q'| ensures q'[p].Label? {
      OriginPos(rw, q, p);
      if rw.added != [] && p == rw.j + 2 {
        Sim.ThreadInstr(rw, q);
      } else {
        EditedTests(q, counter, k, i, rw, S.Origin(rw, p));
      }
    }
  }

  lemma KinKept(q: Code, counter: nat, k: nat, i: nat, rw: Sim.Rewrite, e: nat, x: nat)
    requires Turns(q, counter, k, i, rw, e) && x < |q|
    ensures Sim.Inside(rw, q) && (Kin(Sim.After(rw, q), Sim.Pos(rw, x), Sim.Pos(rw, e)) <==> Kin(q, x, e))
    ensures Kin(q, x, e) ==> ViewOf(Sim.After(rw, q), Sim.Pos(rw, x)) == Moves(rw, ViewOf(q, x))
  {
    hide S.Edits, Sim.After, UniqueLabels, Below, Sim.Pos;
    EditedTests(q, counter, k, i, rw, e);
    EditedTests(q, counter, k, i, rw, x);
  }

  /** The label or branch at a position of the new window comes from the old one. */
  lemma KinOrigin(q: Code, counter: nat, k: nat, i: nat, rw: Sim.Rewrite, e: nat, y: nat) returns (x: nat)
    requires Turns(q, counter, k, i, rw, e) && Sim.Inside(rw, q) && y < |Sim.After(rw, q)|
    requires Sim.After(rw, q)[y].Instr?
    ensures x < |q| && Sim.Pos(rw, x) == y
  {
    ThreadEdit(q, counter, k, i, rw);
    hide S.Edits, Sim.After, UniqueLabels, Below, Retargets;
    Sim.ThreadInstr(rw, q);
    OriginPos(rw, q, y);
    x := S.Origin(rw, y);
  }

  lemma MeetsKept(q: Code, counter: nat, k: nat, i: nat, rw: Sim.Rewrite, e: nat, first: nat, k2: nat, i2: nat, j2: nat)
    requires Turns(q, counter, k, i, rw, e) && Queued(q, e, first) && (Kin(q, i, e) ==> first <= i)
    requires Sim.Inside(rw, q) && K.Meets(Sim.After(rw, q), k2, i2, j2)
    ensures if Kin(Sim.After(rw, q), i2, Sim.Pos(rw, e)) then first <= i2 else j2 + 1 == Sim.Pos(rw, e) || k2 == 6
  {
    ThreadEdit(q, counter, k, i, rw);
    hide S.Edits, Sim.After, UniqueLabels, Below, Joins, Retargets;
    var x := KinOrigin(q, counter, k, i, rw, e, i2);
    KinKept(q, counter, k, i, rw, e, x);
    assert x <= i2;
    if x == i {
      assert i2 == i;
      MeetsRetargeted(q, counter, k, i, rw, e, k2, j2);
    } else {
      var l := MeetsElsewhere(q, counter, k, i, rw, x, k2, j2);
      if !Kin(q, x, e) && k2 != 6 { PosOrder(rw, q, e, l + 1); }
    }
  }

  /* ---- Every branch of the condition follows the first one still ---- */

  lemma StartElsewhere(q: Code, counter: nat, k: nat, i: nat, rw: Sim.Rewrite, e: nat, x: nat)
    requires Turns(q, counter, k, i, rw, e) && Kin(q, x, e) && x != i
    ensures Sim.Inside(rw, q) && Sim.Pos(rw, x) < |Sim.After(rw, q)| && K.Tests(Sim.After(rw, q)[Sim.Pos(rw, x)])
    ensures Start(Sim.After(rw, q), Sim.Pos(rw, x)) == Sim.Pos(rw, Start(q, x))
  {
    hide S.Edits, Sim.After, UniqueLabels, Below, Sim.Pos, Sim.Shape, Target;
    ThreadEdit(q, counter, k, i, rw);
    AlikeItem(q, counter, k, i, rw, x);
    OldTarget(q, counter, k, i, rw, x);
    KeptTarget(rw, q, x, q[x].a.name);
  }

  lemma StartRetargeted(q: Code, counter: nat, k: nat, i: nat, rw: Sim.Rewrite, e: nat)
    requires Turns(q, counter, k, i, rw, e) && Kin(q, i, e)
    ensures Sim.Inside(rw, q) && Sim.Pos(rw, i) == i < |Sim.After(rw, q)| && K.Tests(Sim.After(rw, q)[i])
    ensures Start(q, i) == rw.j + 1 && ViewOf(Sim.After(rw, q), i) == ViewOf(q, i) == Moves(rw, ViewOf(q, i))
    ensures Start(Sim.After(rw, q), i) == Next(Sim.After(rw, q), ViewOf(q, i), i)
    ensures Start(Sim.After(rw, q), i) == Sim.Pos(rw, Next(q, ViewOf(q, i), rw.j + 1))
  {
    hide S.Edits, Sim.After, UniqueLabels, Below, Target;
    KinKept(q, counter, k, i, rw, e, i);
    Shortcut(q, counter, k, i, rw, e, ViewOf(q, i));
    ThreadEdit(q, counter, k, i, rw);
    EditedTests(q, counter, k, i, rw, i);
  }

  lemma AllJoin(q: Code, counter: nat, k: nat, i: nat, rw: Sim.Rewrite, e: nat, first: nat, x: nat)
    requires Turns(q, counter, k, i, rw, e) && Queued(q, e, first) && first < x && Kin(q, x, e)
    requires Kin(q, i, e) ==> first <= i
    requires if Kin(q, i, e) && i == first then true else Behind(q, k, i, rw, e, Start(q, first))
    ensures Sim.Inside(rw, q) && Sim.Pos(rw, first) == first < |Sim.After(rw, q)|
    ensures Sim.Pos(rw, x) < |Sim.After(rw, q)|
    ensures K.Tests(Sim.After(rw, q)[first]) && K.Tests(Sim.After(rw, q)[Sim.Pos(rw, x)])
    ensures var q' := Sim.After(rw, q);
      Joins(q', ViewOf(q', Sim.Pos(rw, x)), Start(q', Sim.Pos(rw, x)), Start(q', first))
  {
    hide S.Edits, Sim.After, UniqueLabels, Below, Behind, Target;
    TurnKinds(q, counter, k, i, rw, e);
    FirstStays(q, counter, k, i, rw, e, first);
    var goal, v := Start(q, first), ViewOf(q, x);
    var m: nat :| JoinsIn(q, v, Start(q, x), goal, m);
    KinKept(q, counter, k, i, rw, e, x);
    hide Retargets, Sim.Pos;
    if x == i {
      StartRetargeted(q, counter, k, i, rw, e);
      StartElsewhere(q, counter, k, i, rw, e, first);
      JoinsRetargeted(q, counter, k, i, rw, e, goal, m);
    } else {
      StartElsewhere(q, counter, k, i, rw, e, x);
      if i == first && Kin(q, i, e) {
        StartRetargeted(q, counter, k, i, rw, e);
        JoinsFollow(q, counter, k, i, rw, e, v, Start(q, x), m);
      } else {
        StartElsewhere(q, counter, k, i, rw, e, first);
        JoinsKept(q, counter, k, i, rw, e, v, Start(q, x), goal, m);
      }
    }
  }

  lemma FirstStays(q: Code, counter: nat, k: nat, i: nat, rw: Sim.Rewrite, e: nat, first: nat)
    requires Turns(q, counter, k, i, rw, e) && Queued(q, e, first) && (Kin(q, i, e) ==> first <= i)
    ensures Sim.Inside(rw, q) && Sim.Pos(rw, first) == first < |Sim.After(rw, q)|
    ensures K.Tests(Sim.After(rw, q)[first]) && Kin(q, first, e) && first <= e
  {
    hide S.Edits, Sim.After, UniqueLabels, Below, Joins;
    TurnKinds(q, counter, k, i, rw, e);
    EditedTests(q, counter, k, i, rw, first);
  }

  lemma QueuedKept(q: Code, counter: nat, k: nat, i: nat, rw: Sim.Rewrite, e: nat, first: nat)
    requires Turns(q, counter, k, i, rw, e) && Queued(q, e, first) && (Kin(q, i, e) ==> first <= i)
    requires (Kin(q, i, e) && i == first) || Behind(q, k, i, rw, e, Start(q, first))
    ensures Sim.Inside(rw, q) && Queued(Sim.After(rw, q), Sim.Pos(rw, e), first)
  {
    hide S.Edits, Sim.After, UniqueLabels, Below, Behind, Target, Joins, Retargets;
    EndKept(q, counter, k, i, rw, e);
    FirstStays(q, counter, k, i, rw, e, first);
    KinKept(q, counter, k, i, rw, e, first);
    ThreadEdit(q, counter, k, i, rw);
    var q', e' := Sim.After(rw, q), Sim.Pos(rw, e);
    forall k2: nat, i2: nat, j2: nat | K.Meets(q', k2, i2, j2)
      ensures if Kin(q', i2, e') then first <= i2 else j2 + 1 == e' || k2 == 6
    {
      MeetsKept(q, counter, k, i, rw, e, first, k2, i2, j2);
    }
    forall y | first < y < |q'| && Kin(q', y, e')
      ensures Joins(q', ViewOf(q', y), Start(q', y), Start(q', first))
    {
      var x := KinOrigin(q, counter, k, i, rw, e, y);
      KinKept(q, counter, k, i, rw, e, x);
      assert first < x;
      AllJoin(q, counter, k, i, rw, e, first, x);
    }
    assert first <= e';
  }

  /* ---- The first branch's chain ---- */

  lemma {:induction false} ReachesAlong(q: Code, v: View, x: nat, m: nat, n: nat)
    requires Reaches(q, v, x, m) && n <= m
    ensures Reaches(q, v, Along(q, v, x, n), m - n)
    decreases n
  {
    hide Ring, Next;
    if n > 0 { ReachesAlong(q, v, Next(q, v, x), m - 1, n - 1); }
  }

  /** A chain to a ring cannot pass a place that leads nowhere. */
  lemma AvoidsDead(q: Code, v: View, x: nat, m: nat, dead: nat)
    requires Reaches(q, v, x, m) && !Circles(q, v, dead)
    ensures Avoids(q, v, x, m, dead)
  {
    hide Ring, Next, Circles;
    forall n: nat | n <= m ensures Along(q, v, x, n) != dead {
      ReachesAlong(q, v, x, m, n);
      if Along(q, v, x, n) == dead { NotReached(q, v, dead, m - n); }
    }
  }

  /** The shortest chain from behind an opposite branch does not pass it again. */
  lemma AvoidsAgain(q: Code, v: View, p: nat, m: nat)
    requires On(q, v, p) && !Same(q, v, p) && Reaches(q, v, Next(q, v, p), m)
    requires forall n: nat :: n < m ==> !Reaches(q, v, Next(q, v, p), n)
    ensures Avoids(q, v, Next(q, v, p), m, p)
  {
    hide Ring, Next;
    var x := Next(q, v, p);
    forall n: nat | n <= m ensures Along(q, v, x, n) != p {
      ReachesAlong(q, v, x, m, n);
      if Along(q, v, x, n) == p {
        if m - n == 0 { RingStep(q, v, p); }
        assert false;
      }
    }
  }

  lemma Shortest(q: Code, v: View, x: nat) returns (m: nat)
    requires Circles(q, v, x)
    ensures Reaches(q, v, x, m) && forall n: nat :: n < m ==> !Reaches(q, v, x, n)
  {
    hide Ring, Next;
    m :| Reaches(q, v, x, m);
    while exists n: nat :: n < m && Reaches(q, v, x, n)
      invariant Reaches(q, v, x, m)
      decreases m
    {
      var n: nat :| n < m && Reaches(q, v, x, n);
      m := n;
    }
  }

  /** Another branch is retargeted. */
  lemma RoundElsewhere(q: Code, counter: nat, k: nat, i: nat, rw: Sim.Rewrite, e: nat, v: View, x: nat)
    requires Turns(q, counter, k, i, rw, e) && Views(q, e, v) && v.at < x <= |q|
    requires Kin(q, i, e) && k > 8 ==> v.at < i && rw.j + 2 < |q| && q[rw.j + 2].Label?
    ensures Sim.Inside(rw, q)
    ensures Circles(Sim.After(rw, q), Moves(rw, v), Sim.Pos(rw, x)) <==> Circles(q, v, x)
  {
    hide S.Edits, Sim.After, UniqueLabels, Below, Ring, Next, Reaches, Retargets, Sim.Pos;
    ThreadEdit(q, counter, k, i, rw);
    if Circles(q, v, x) {
      var m: nat :| Reaches(q, v, x, m);
      if Kin(q, i, e) && k > 8 {
        DeadEnd(q, counter, k, i, rw, e, v);
        AvoidsDead(q, v, x, m, rw.j + 1);
      }
      CirclesOn(q, counter, k, i, rw, e, v, x, m);
    }
    if Circles(Sim.After(rw, q), Moves(rw, v), Sim.Pos(rw, x)) {
      var m: nat :| Reaches(Sim.After(rw, q), Moves(rw, v), Sim.Pos(rw, x), m);
      CirclesBack(q, counter, k, i, rw, e, v, x, m);
    }
  }

  /** The first branch itself is retargeted. */
  lemma RoundRetargeted(q: Code, counter: nat, k: nat, i: nat, rw: Sim.Rewrite, e: nat)
    requires Turns(q, counter, k, i, rw, e) && Kin(q, i, e)
    ensures Sim.Inside(rw, q) && i < |Sim.After(rw, q)| && K.Tests(Sim.After(rw, q)[i])
    ensures Round(Sim.After(rw, q), i) <==> Round(q, i)
  {
    hide S.Edits, Sim.After, UniqueLabels, Below, Ring, Reaches, Retargets, Target, Circles;
    ThreadEdit(q, counter, k, i, rw);
    TurnKinds(q, counter, k, i, rw, e);
    StartRetargeted(q, counter, k, i, rw, e);
    var v := ViewOf(q, i);
    Shortcut(q, counter, k, i, rw, e, v);
    CirclesStep(q, v, rw.j + 1);
    hide Sim.Pos;
    var y := Next(q, v, rw.j + 1);
    hide Next;
    if Circles(q, v, y) {
      var m := Shortest(q, v, y);
      if k > 8 { AvoidsAgain(q, v, rw.j + 1, m); }
      CirclesOn(q, counter, k, i, rw, e, v, y, m);
    }
    if Circles(Sim.After(rw, q), v, Sim.Pos(rw, y)) {
      var m := Shortest(Sim.After(rw, q), v, Sim.Pos(rw, y));
      CirclesBack(q, counter, k, i, rw, e, v, y, m);
    }
  }

  lemma RoundKept(q: Code, counter: nat, k: nat, i: nat, rw: Sim.Rewrite, e: nat, first: nat)
    requires Turns(q, counter, k, i, rw, e) && Queued(q, e, first) && (Kin(q, i, e) ==> first <= i)
    requires (Kin(q, i, e) && i == first) || Behind(q, k, i, rw, e, Start(q, first))
    ensures Sim.Inside(rw, q) && first < |Sim.After(rw, q)| && K.Tests(Sim.After(rw, q)[first])
    ensures Round(Sim.After(rw, q), first) <==> Round(q, first)
  {
    hide S.Edits, Sim.After, UniqueLabels, Below, Target, Joins, Retargets, Circles;
    FirstStays(q, counter, k, i, rw, e, first);
    if Kin(q, i, e) && i == first {
      RoundRetargeted(q, counter, k, i, rw, e);
    } else {
      KinKept(q, counter, k, i, rw, e, first);
      StartElsewhere(q, counter, k, i, rw, e, first);
      RoundElsewhere(q, counter, k, i, rw, e, ViewOf(q, first), Start(q, first));
    }
  }
}
