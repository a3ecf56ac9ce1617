/** Without a ring the optimiser comes to rest: every application makes the window
    smaller in a well-founded order. */
module KeyholeTermination {
  import opened Assembly
  import opened KeyholeRing
  import Sim = Simulation
  import R = KeyholeRules
  import E = KeyholeEffect
  import S = KeyholeSound
  import W = KeyholePasses
  import K = KeyholeMatch

  /* ---- Sums over the items ---- */

  function Sum(q: Code, weight: Item -> nat): nat {
    if q == [] then 0 else weight(q[0]) + Sum(q[1..], weight)
  }

  function IsSwap(item: Item): nat { if item.Instr? && item.op == Swap then 1 else 0 }
  function IsConcat(item: Item): nat {
    if item.Instr? && (item.op == Concat || item.op == Sconcat) then 1 else 0
  }
  function IsJump(item: Item): nat { if item.Instr? && item.op == Br then 1 else 0 }

  lemma {:induction false} SumAppend(a: Code, b: Code, weight: Item -> nat)
    ensures Sum(a + b, weight) == Sum(a, weight) + Sum(b, weight)
  {
    if a == [] {
      assert a + b == b;
    } else {
      assert (a + b)[1..] == a[1..] + b;
      SumAppend(a[1..], b, weight);
    }
  }

  lemma SumAround(a: Code, x: Item, b: Code, weight: Item -> nat)
    ensures Sum(a + [x] + b, weight) == Sum(a, weight) + weight(x) + Sum(b, weight)
  {
    SumAppend(a + [x], b, weight);
    SumAppend(a, [x], weight);
    assert [x][1..] == [];
  }

  lemma Cut(q: Code, i: nat, j: nat, s: Item, t: Item, added: Code)
    requires i < j && j + 1 < |q|
    ensures var (a, m, b) := (q[..i], q[i + 1..j + 1], q[j + 2..]);
      && q == a + [q[i]] + (m + [q[j + 1]] + b)
      && Sim.After(Sim.Thread(i, j, s, t, added), q) == a + [s] + (m + [t] + (added + b))
  {
  }

  lemma SumThreaded(q: Code, i: nat, j: nat, s: Item, t: Item, added: Code, weight: Item -> nat)
    requires i < j && j + 1 < |q|
    ensures Sum(Sim.After(Sim.Thread(i, j, s, t, added), q), weight) + weight(q[i]) + weight(q[j + 1])
      == Sum(q, weight) + weight(s) + weight(t) + Sum(added, weight)
  {
    var (a, m, b) := (q[..i], q[i + 1..j + 1], q[j + 2..]);
    Cut(q, i, j, s, t, added);
    hide Sim.After;
    SumAround(a, q[i], m + [q[j + 1]] + b, weight);
    SumAround(m, q[j + 1], b, weight);
    SumAround(a, s, m + [t] + (added + b), weight);
    SumAround(m, t, added + b, weight);
    SumAppend(added, b, weight);
  }

  /* ---- Sums over the positions ---- */

  function Tally(q: Code, f: nat -> nat, p: nat): nat
    requires p <= |q|
    decreases |q| - p
  {
    if p == |q| then 0 else f(p) + Tally(q, f, p + 1)
  }

  /** A threaded window, where one position loses d and the new label counts nothing. */
  lemma {:induction false} TallyThreaded(rw: Sim.Rewrite, q: Code, f: nat -> nat, f': nat -> nat,
                                         a: nat, d: nat, p: nat)
    requires Sim.Shape(rw, q) && rw.Thread? && p <= |q| && a < |q|
    requires forall x: nat :: x < |q| && x != a ==> f'(Sim.Pos(rw, x)) == f(x)
    requires f'(Sim.Pos(rw, a)) + d == f(a) && (rw.added != [] ==> f'(rw.j + 2) == 0)
    ensures Sim.Pos(rw, p) <= |Sim.After(rw, q)|
    ensures Tally(Sim.After(rw, q), f', Sim.Pos(rw, p)) + (if p <= a then d else 0) == Tally(q, f, p)
    decreases |q| - p
  {
    Sim.ThreadSize(rw, q);
    hide Sim.After;
    if p < |q| { TallyThreaded(rw, q, f, f', a, d, p + 1); }
  }

  /** A conditional branch with no label behind it. */
  function Open(q: Code): nat -> nat {
    (p: nat) => if p < |q| && K.Tests(q[p]) && !(p + 1 < |q| && q[p + 1].Label?) then 1 else 0
  }

  /** A conditional branch to a label of the window with no label behind that. */
  function Live(q: Code): nat -> nat {
    (p: nat) => if p < |q| && K.Tests(q[p]) && Start(q, p) < |q| && !q[Start(q, p)].Label? then 1 else 0
  }

  /* ---- Lengths of chains ---- */

  /** How far a chain on the same condition goes, at most `fuel` branches. */
  function Length(q: Code, v: View, p: nat, fuel: nat): (n: nat)
    ensures n <= fuel
    decreases fuel
  {
    if fuel == 0 || !Same(q, v, p) then 0 else 1 + Length(q, v, Next(q, v, p), fuel - 1)
  }

  lemma {:induction false} AlongAdd(q: Code, v: View, p: nat, m: nat, n: nat)
    ensures Along(q, v, p, m + n) == Along(q, v, Along(q, v, p, m), n)
    decreases m
  {
    hide Next;
    if m > 0 { AlongAdd(q, v, Next(q, v, p), m - 1, n); }
  }

  lemma {:induction false} FullLength(q: Code, v: View, p: nat, fuel: nat, m: nat)
    requires Length(q, v, p, fuel) == fuel && m < fuel
    ensures Same(q, v, Along(q, v, p, m))
    decreases fuel
  {
    hide Next, Same;
    if m > 0 { FullLength(q, v, Next(q, v, p), fuel - 1, m - 1); }
  }

  function Visited(q: Code, v: View, p: nat, m: nat): set<nat> {
    set n: nat | n < m :: Along(q, v, p, n)
  }

  lemma {:induction false} VisitedCount(q: Code, v: View, p: nat, m: nat)
    requires forall b: nat :: b < m ==> Along(q, v, p, b) !in Visited(q, v, p, b)
    ensures |Visited(q, v, p, m)| == m
    decreases m
  {
    if m > 0 {
      VisitedCount(q, v, p, m - 1);
      assert Visited(q, v, p, m) == Visited(q, v, p, m - 1) + {Along(q, v, p, m - 1)};
    }
  }

  function UpTo(n: nat): set<nat> {
    if n == 0 then {} else UpTo(n - 1) + {n - 1}
  }

  lemma {:induction false} UpToAre(n: nat)
    ensures |UpTo(n)| == n && forall x: nat :: x in UpTo(n) <==> x < n
  {
    if n > 0 { UpToAre(n - 1); }
  }

  lemma SmallSet(a: set<nat>, n: nat)
    requires forall x :: x in a ==> x < n
    ensures |a| <= n
  {
    UpToAre(n);
    assert a <= UpTo(n);
    assert UpTo(n) == a + (UpTo(n) - a);
  }

  /** A chain of more branches than there are positions visits one position twice. */
  lemma Repeats(q: Code, v: View, p: nat) returns (a: nat, b: nat)
    requires forall m: nat :: m <= |q| ==> Along(q, v, p, m) < |q|
    ensures a < b <= |q| && Along(q, v, p, a) == Along(q, v, p, b)
  {
    if forall b: nat :: b < |q| + 1 ==> Along(q, v, p, b) !in Visited(q, v, p, b) {
      VisitedCount(q, v, p, |q| + 1);
      SmallSet(Visited(q, v, p, |q| + 1), |q|);
      assert false;
    }
    b :| 0 <= b < |q| + 1 && Along(q, v, p, b) in Visited(q, v, p, b);
    a :| 0 <= a < b && Along(q, v, p, a) == Along(q, v, p, b);
  }

  lemma {:induction false} Again(q: Code, v: View, p: nat, a: nat, b: nat, m: nat)
    requires a < b && Along(q, v, p, a) == Along(q, v, p, b)
    requires forall n: nat :: n < b ==> Same(q, v, Along(q, v, p, n))
    ensures Same(q, v, Along(q, v, p, m))
    decreases m
  {
    if m >= b {
      AlongAdd(q, v, p, b, m - b);
      AlongAdd(q, v, p, a, m - b);
      Again(q, v, p, a, b, a + (m - b));
    }
  }

  /** So a chain that goes on that long is a ring. */
  lemma LongRing(q: Code, v: View, p: nat)
    requires Length(q, v, p, |q| + 1) == |q| + 1
    ensures Ring(q, v, p)
  {
    forall m: nat | m <= |q| ensures Same(q, v, Along(q, v, p, m)) {
      FullLength(q, v, p, |q| + 1, m);
    }
    var a, b := Repeats(q, v, p);
    forall m: nat ensures Same(q, v, Along(q, v, p, m)) {
      Again(q, v, p, a, b, m);
    }
  }

  lemma {:induction false} EnoughFuel(q: Code, v: View, p: nat, fuel: nat)
    requires Length(q, v, p, fuel) < fuel
    ensures Length(q, v, p, fuel + 1) == Length(q, v, p, fuel)
    decreases fuel
  {
    if Same(q, v, p) { EnoughFuel(q, v, Next(q, v, p), fuel - 1); }
  }

  /** The lengths of the chains of all conditional branches, those behind first. */
  function Weight(q: Code, p: nat): nat
    requires p <= |q|
    decreases |q| - p
  {
    if p == |q| then 0 else Weight(q, p + 1) * (|q| + 2) + Digit(q, p)
  }

  function Digit(q: Code, p: nat): (d: nat)
    requires p < |q|
    ensures d < |q| + 2
  {
    if K.Tests(q[p]) then Length(q, ViewOf(q, p), Start(q, p), |q| + 1) else 0
  }

  lemma Carry(high: nat, high': nat, base: nat, low: nat, low': nat)
    requires high' < high && low' < base
    ensures high' * base + low' < high * base + low
  {
    assert high * base >= (high' + 1) * base == high' * base + base;
  }

  /** One shorter chain makes the weight smaller, whatever happens in front of it. */
  lemma {:induction false} WeightFalls(q: Code, q': Code, i: nat, p: nat)
    requires |q| == |q'| && p <= i < |q|
    requires Digit(q', i) < Digit(q, i) && forall x: nat :: i < x < |q| ==> Digit(q', x) == Digit(q, x)
    ensures Weight(q', p) < Weight(q, p)
    decreases |q| - p
  {
    hide Digit;
    if p == i {
      WeightSame(q, q', i, i + 1);
    } else {
      WeightFalls(q, q', i, p + 1);
      Carry(Weight(q, p + 1), Weight(q', p + 1), |q| + 2, Digit(q, p), Digit(q', p));
    }
  }

  lemma {:induction false} WeightSame(q: Code, q': Code, i: nat, p: nat)
    requires |q| == |q'| && i < p <= |q|
    requires forall x: nat :: i < x < |q| ==> Digit(q', x) == Digit(q, x)
    ensures Weight(q', p) == Weight(q, p)
    decreases |q| - p
  {
    hide Digit;
    if p < |q| { WeightSame(q, q', i, p + 1); }
  }

  /* ---- Applications on one condition: nothing moves, one chain gets shorter ---- */

  lemma ShortEdit(q: Code, counter: nat, k: nat, i: nat, rw: Sim.Rewrite)
    requires 7 <= k <= 8 && i < |q| && S.Edits(q, counter, k, i, rw)
    ensures Retargets(q, counter, k, i, rw) && rw.Thread? && rw.i == i && rw.added == []
    ensures Sim.Shape(rw, q) && Sim.Inside(rw, q)
    ensures |Sim.After(rw, q)| == |q| && forall p :: Sim.Pos(rw, p) == p
    ensures forall v :: Moves(rw, v) == v
  {
    EditRetargets(q, counter, k, i, rw);
    EditShape(q, counter, k, i, rw);
    hide S.Edits, R.Apply;
    Sim.ThreadSize(rw, q);
  }

  lemma SameKept(q: Code, counter: nat, k: nat, i: nat, rw: Sim.Rewrite, v: View, p: nat)
    requires 7 <= k <= 8 && i < |q| && S.Edits(q, counter, k, i, rw) && Below(q, counter)
    requires v.at < |q| && K.Tests(q[v.at]) && p != i
    ensures Same(Sim.After(rw, q), v, p) <==> Same(q, v, p)
    ensures Same(q, v, p) ==> Next(Sim.After(rw, q), v, p) == Next(q, v, p)
  {
    hide S.Edits, Sim.After, Sim.Shape, Sim.Inside, Sim.Pos, Next, Below;
    ShortEdit(q, counter, k, i, rw);
    assert Moves(rw, v) == v && Sim.Pos(rw, p) == p;
    if Same(q, v, p) {
      StepKept(q, counter, k, i, rw, v, p);
    } else if p < |q| {
      Sim.ThreadItem(rw, q, p);
    }
  }

  lemma {:induction false} LengthKept(q: Code, counter: nat, k: nat, i: nat, rw: Sim.Rewrite, v: View, p: nat, fuel: nat)
    requires 7 <= k <= 8 && i < |q| && S.Edits(q, counter, k, i, rw) && Below(q, counter)
    requires i <= v.at < |q| && K.Tests(q[v.at]) && p > v.at
    ensures Length(Sim.After(rw, q), v, p, fuel) == Length(q, v, p, fuel)
    decreases fuel
  {
    hide S.Edits, Sim.After, Same, Next, Retargets, Below, Sim.Shape;
    ShortEdit(q, counter, k, i, rw);
    SameKept(q, counter, k, i, rw, v, p);
    if fuel > 0 && Same(q, v, p) {
      LengthKept(q, counter, k, i, rw, v, Next(q, v, p), fuel - 1);
    }
  }

  lemma DigitKept(q: Code, counter: nat, k: nat, i: nat, rw: Sim.Rewrite, p: nat)
    requires 7 <= k <= 8 && i < |q| && S.Edits(q, counter, k, i, rw) && Below(q, counter)
    requires i < p < |q|
    ensures p < |Sim.After(rw, q)| && Digit(Sim.After(rw, q), p) == Digit(q, p)
  {
    hide S.Edits, Sim.After, Sim.Shape, Length, Target, Retargets, Below;
    ShortEdit(q, counter, k, i, rw);
    if K.Tests(q[p]) {
      KeptItem(q, counter, k, i, rw, p);
      OldName(q, counter, k, i, rw, p);
      KeptTarget(rw, q, p, q[p].a.name);
      LengthKept(q, counter, k, i, rw, ViewOf(q, p), Start(q, p), |q| + 1);
    } else {
      OtherItem(q, counter, k, i, rw, p);
    }
  }

  lemma OtherItem(q: Code, counter: nat, k: nat, i: nat, rw: Sim.Rewrite, p: nat)
    requires 7 <= k <= 8 && i < |q| && S.Edits(q, counter, k, i, rw)
    requires p < |q| && !K.Tests(q[p]) && p != i
    ensures p < |Sim.After(rw, q)| && !K.Tests(Sim.After(rw, q)[p])
  {
    ShortEdit(q, counter, k, i, rw);
    hide S.Edits, Sim.After;
    Sim.ThreadItem(rw, q, p);
  }

  lemma DigitFalls(q: Code, counter: nat, k: nat, i: nat, rw: Sim.Rewrite)
    requires 7 <= k <= 8 && i < |q| && S.Edits(q, counter, k, i, rw) && S.Tidy(q, counter) && !HasRing(q)
    ensures |Sim.After(rw, q)| == |q| && Digit(Sim.After(rw, q), i) < Digit(q, i)
  {
    hide S.Edits, Sim.After, Sim.Shape, UniqueLabels, Below, Target;
    ShortStart(q, counter, k, i, rw);
    var q', v, p := Sim.After(rw, q), ViewOf(q, i), rw.j + 1;
    var y := Next(q, v, p);
    LengthKept(q, counter, k, i, rw, v, y, |q| + 1);
    hide Retargets, Next, Same;
    if Length(q, v, p, |q| + 1) == |q| + 1 {
      LongRing(q, v, p);
      assert false;
    }
    assert Digit(q, i) == 1 + Length(q, v, y, |q|);
    EnoughFuel(q, v, y, |q|);
    assert Digit(q', i) == Length(q', v, y, |q| + 1);
  }

  lemma ShortStart(q: Code, counter: nat, k: nat, i: nat, rw: Sim.Rewrite)
    requires 7 <= k <= 8 && i < |q| && S.Edits(q, counter, k, i, rw) && S.Tidy(q, counter)
    ensures rw.Thread? && Sim.Inside(rw, q) && K.Tests(q[i]) && Start(q, i) == rw.j + 1 && Same(q, ViewOf(q, i), rw.j + 1)
    ensures |Sim.After(rw, q)| == |q| && K.Tests(Sim.After(rw, q)[i])
    ensures ViewOf(Sim.After(rw, q), i) == ViewOf(q, i)
    ensures Start(Sim.After(rw, q), i) == Next(q, ViewOf(q, i), rw.j + 1)
  {
    hide S.Edits, Sim.After, Sim.Shape, UniqueLabels, Below, Target;
    ShortEdit(q, counter, k, i, rw);
    RetargetedItem(q, counter, k, i, rw);
    LabelPlace(q, counter, k, i, rw, i);
    ShortTarget(q, counter, k, i, rw, i);
  }

  lemma ShortWeight(q: Code, counter: nat, k: nat, i: nat, rw: Sim.Rewrite)
    requires 7 <= k <= 8 && i < |q| && S.Edits(q, counter, k, i, rw) && S.Tidy(q, counter) && !HasRing(q)
    ensures Weight(Sim.After(rw, q), 0) < Weight(q, 0)
  {
    hide Digit, HasRing, S.Edits, Sim.After, UniqueLabels, Below;
    ShortEdit(q, counter, k, i, rw);
    DigitFalls(q, counter, k, i, rw);
    forall x: nat | i < x < |q| ensures Digit(Sim.After(rw, q), x) == Digit(q, x) {
      DigitKept(q, counter, k, i, rw, x);
    }
    WeightFalls(q, Sim.After(rw, q), i, 0);
  }

  /* ---- What a branch application does to open and live branches ---- */

  lemma BranchEdit(q: Code, counter: nat, k: nat, i: nat, rw: Sim.Rewrite)
    requires 7 <= k < R.SetCount && i < |q| && S.Edits(q, counter, k, i, rw)
    ensures Retargets(q, counter, k, i, rw) && rw.Thread? && rw.i == i
    ensures Sim.Shape(rw, q) && Sim.Inside(rw, q)
    ensures Sim.Pos(rw, i) == i && Sim.Pos(rw, 0) == 0 && Sim.Pos(rw, |q|) == |Sim.After(rw, q)|
  {
    EditRetargets(q, counter, k, i, rw);
    EditShape(q, counter, k, i, rw);
    hide S.Edits, R.Apply;
    Sim.ThreadSize(rw, q);
  }

  lemma KindKept(q: Code, counter: nat, k: nat, i: nat, rw: Sim.Rewrite, x: nat)
    requires 7 <= k < R.SetCount && i < |q| && S.Edits(q, counter, k, i, rw) && x < |q|
    ensures rw.Thread? && Sim.Inside(rw, q) && Sim.Pos(rw, x) < |Sim.After(rw, q)|
    ensures var item := Sim.After(rw, q)[Sim.Pos(rw, x)];
      (K.Tests(item) <==> K.Tests(q[x])) && (item.Label? <==> q[x].Label?)
  {
    BranchEdit(q, counter, k, i, rw);
    hide S.Edits, Sim.After, Sim.Shape;
    Sim.ThreadItem(rw, q, x);
  }

  lemma OpenKept(q: Code, counter: nat, k: nat, i: nat, rw: Sim.Rewrite, x: nat)
    requires 7 <= k < R.SetCount && i < |q| && S.Edits(q, counter, k, i, rw) && x < |q|
    requires rw.Thread? && Sim.Inside(rw, q) && (rw.added != [] ==> x != rw.j + 1)
    ensures Open(Sim.After(rw, q))(Sim.Pos(rw, x)) == Open(q)(x)
  {
    hide S.Edits, Sim.After, Sim.Shape, Retargets;
    BranchEdit(q, counter, k, i, rw);
    KindKept(q, counter, k, i, rw, x);
    assert Sim.Pos(rw, x + 1) == Sim.Pos(rw, x) + 1;
    if x + 1 < |q| { KindKept(q, counter, k, i, rw, x + 1); }
  }

  lemma NewLabelPlace(q: Code, counter: nat, k: nat, i: nat, rw: Sim.Rewrite, at: nat)
    requires k == 9 || k == 10
    requires i < |q| && S.Edits(q, counter, k, i, rw)
    ensures rw.Thread? && Sim.Inside(rw, q) && rw.added == [Label(Gen(counter))]
    ensures |Sim.After(rw, q)| == |q| + 1 && Sim.After(rw, q)[rw.j + 2] == Label(Gen(counter))
    ensures Target(Sim.After(rw, q), at, Gen(counter)) == if at < rw.j + 2 then rw.j + 3 else |q| + 1
  {
    BranchEdit(q, counter, k, i, rw);
    hide S.Edits, Sim.After, Sim.Shape;
    Sim.NewFind(rw, q);
    Sim.ThreadSize(rw, q);
    Sim.ThreadInstr(rw, q);
  }

  /** A branch that is not retargeted is as live as before. */
  lemma LiveKept(q: Code, counter: nat, k: nat, i: nat, rw: Sim.Rewrite, x: nat)
    requires 7 <= k < R.SetCount && i < |q| && S.Edits(q, counter, k, i, rw) && Below(q, counter)
    requires x < |q| && x != i
    ensures rw.Thread? && Sim.Inside(rw, q)
    ensures Live(Sim.After(rw, q))(Sim.Pos(rw, x)) == Live(q)(x)
  {
    hide S.Edits, Sim.After, Sim.Shape, Retargets, Target, Below;
    BranchEdit(q, counter, k, i, rw);
    KindKept(q, counter, k, i, rw, x);
    if K.Tests(q[x]) {
      KeptItem(q, counter, k, i, rw, x);
      OldName(q, counter, k, i, rw, x);
      KeptTarget(rw, q, x, q[x].a.name);
      if Start(q, x) < |q| {
        KindKept(q, counter, k, i, rw, Start(q, x));
      }
    }
  }

  lemma LiveBefore(q: Code, counter: nat, k: nat, i: nat, rw: Sim.Rewrite)
    requires 7 <= k < R.SetCount && i < |q| && S.Edits(q, counter, k, i, rw) && S.Tidy(q, counter)
    ensures Live(q)(i) == 1
    ensures rw.Thread? && Sim.Inside(rw, q) && Live(Sim.After(rw, q))(i) <= 1
  {
    hide S.Edits, UniqueLabels, Below;
    BranchEdit(q, counter, k, i, rw);
    LabelPlace(q, counter, k, i, rw, i);
  }

  /** A new label behind an old one is as good as none. */
  lemma LiveNoMore(q: Code, counter: nat, k: nat, i: nat, rw: Sim.Rewrite)
    requires k == 9 || k == 10
    requires i < |q| && S.Edits(q, counter, k, i, rw) && S.Tidy(q, counter)
    requires rw.Thread? && rw.j + 2 < |q| && q[rw.j + 2].Label?
    ensures Sim.Inside(rw, q) && Live(Sim.After(rw, q))(i) == 0
  {
    hide S.Edits, UniqueLabels, Below, Sim.After;
    BranchEdit(q, counter, k, i, rw);
    RetargetedItem(q, counter, k, i, rw);
    NewLabelPlace(q, counter, k, i, rw, i);
    KindKept(q, counter, k, i, rw, rw.j + 2);
  }

  lemma OpenTally(q: Code, counter: nat, k: nat, i: nat, rw: Sim.Rewrite)
    requires 7 <= k < R.SetCount && i < |q| && S.Edits(q, counter, k, i, rw)
    ensures rw.Thread? && Sim.Inside(rw, q)
    ensures Tally(Sim.After(rw, q), Open(Sim.After(rw, q)), 0)
      + (if rw.added == [] then 0 else Open(q)(rw.j + 1)) == Tally(q, Open(q), 0)
  {
    hide S.Edits, Sim.After, Retargets, Sim.Shape, Open, Sim.Pos, Tally;
    BranchEdit(q, counter, k, i, rw);
    var q', d := Sim.After(rw, q), if rw.added == [] then 0 else Open(q)(rw.j + 1);
    forall x: nat | x < |q| && x != rw.j + 1 ensures Open(q')(Sim.Pos(rw, x)) == Open(q)(x) {
      OpenKept(q, counter, k, i, rw, x);
    }
    if rw.added == [] {
      OpenKept(q, counter, k, i, rw, rw.j + 1);
    } else {
      OpenNoMore(q, counter, k, i, rw);
    }
    TallyThreaded(rw, q, Open(q), Open(q'), rw.j + 1, d, 0);
  }

  lemma OpenNoMore(q: Code, counter: nat, k: nat, i: nat, rw: Sim.Rewrite)
    requires 7 <= k < R.SetCount && i < |q| && S.Edits(q, counter, k, i, rw) && rw.Thread? && rw.added != []
    ensures Sim.Inside(rw, q)
    ensures Open(Sim.After(rw, q))(Sim.Pos(rw, rw.j + 1)) == 0 && Open(Sim.After(rw, q))(rw.j + 2) == 0
  {
    BranchEdit(q, counter, k, i, rw);
    hide S.Edits, Sim.After, Sim.Shape;
    NewLabelPlace(q, counter, k, i, rw, i);
  }

  lemma LiveTally(q: Code, counter: nat, k: nat, i: nat, rw: Sim.Rewrite)
    requires 7 <= k < R.SetCount && i < |q| && S.Edits(q, counter, k, i, rw) && S.Tidy(q, counter)
    ensures rw.Thread? && Sim.Inside(rw, q) && Live(Sim.After(rw, q))(i) <= 1
    ensures Tally(Sim.After(rw, q), Live(Sim.After(rw, q)), 0) + 1
      == Tally(q, Live(q), 0) + Live(Sim.After(rw, q))(i)
  {
    BranchEdit(q, counter, k, i, rw);
    var q' := Sim.After(rw, q);
    hide S.Edits, Sim.After, Retargets, Sim.Shape, UniqueLabels, Below;
    LiveBefore(q, counter, k, i, rw);
    forall x: nat | x < |q| && x != i ensures Live(q')(Sim.Pos(rw, x)) == Live(q)(x) {
      LiveKept(q, counter, k, i, rw, x);
    }
    if rw.added != [] { NotLive(q, counter, k, i, rw); }
    TallyThreaded(rw, q, Live(q), Live(q'), i, 1 - Live(q')(i), 0);
  }

  lemma NotLive(q: Code, counter: nat, k: nat, i: nat, rw: Sim.Rewrite)
    requires 7 <= k < R.SetCount && i < |q| && S.Edits(q, counter, k, i, rw) && rw.Thread? && rw.added != []
    ensures Sim.Inside(rw, q) && Live(Sim.After(rw, q))(rw.j + 2) == 0
  {
    BranchEdit(q, counter, k, i, rw);
    hide S.Edits, Sim.After, Sim.Shape;
    NewLabelPlace(q, counter, k, i, rw, i);
  }

  /* ---- Every application makes the window smaller ---- */

  /** Fewer swaps, or as many and fewer concatenations, or as many of both and fewer
      jumps, or fewer open branches, or fewer live ones, or at last shorter chains. */
  ghost predicate Smaller(q': Code, q: Code) {
    var a', a := Sum(q', IsSwap), Sum(q, IsSwap);
    var b', b := Sum(q', IsConcat), Sum(q, IsConcat);
    var c', c := Sum(q', IsJump), Sum(q, IsJump);
    var d', d := Tally(q', Open(q'), 0), Tally(q, Open(q), 0);
    var e', e := Tally(q', Live(q'), 0), Tally(q, Live(q), 0);
    a' < a || (a' == a && (b' < b || (b' == b && (c' < c || (c' == c && (
      d' < d || (d' == d && (e' < e || (e' == e && Weight(q', 0) < Weight(q, 0))))))))))
  }

  lemma SmallerTrans(a: Code, b: Code, c: Code)
    requires Smaller(a, b) && Smaller(b, c)
    ensures Smaller(a, c)
  {
    hide Sum, Tally, Weight, Open, Live;
  }

  lemma PairSmaller(q: Code, rw: Sim.Rewrite)
    requires Sim.Shape(rw, q) && rw.Pair? && q[rw.i].op == Swap
    ensures Smaller(Sim.After(rw, q), q)
  {
    var (i, j) := (rw.i, rw.j);
    var a, m, b := q[..i], q[i + 1..j], q[j + 1..];
    assert q == a + [q[i]] + (m + [q[j]] + b);
    assert Sim.After(rw, q) == a + (m + b);
    SumAround(a, q[i], m + [q[j]] + b, IsSwap);
    SumAround(m, q[j], b, IsSwap);
    SumAppend(a, m + b, IsSwap);
    SumAppend(m, b, IsSwap);
    hide Tally, Weight;
  }

  lemma ReplaceSmaller(q: Code, rw: Sim.Rewrite)
    requires Sim.Shape(rw, q) && rw.Replace?
    requires q[rw.i].op == Concat || q[rw.i].op == Sconcat
    requires rw.item.op == Append || rw.item.op == Sappend
    ensures Smaller(Sim.After(rw, q), q)
  {
    var (i, item) := (rw.i, rw.item);
    var a, b := q[..i], q[i + 1..];
    assert q == a + [q[i]] + b && q[i := item] == a + [item] + b;
    SumAround(a, q[i], b, IsSwap);
    SumAround(a, item, b, IsSwap);
    SumAround(a, q[i], b, IsConcat);
    SumAround(a, item, b, IsConcat);
    hide Tally, Weight;
  }

  lemma NoSums(added: Code)
    requires added == [] || (|added| == 1 && added[0].Label?)
    ensures Sum(added, IsSwap) == 0 && Sum(added, IsConcat) == 0 && Sum(added, IsJump) == 0
  {
    assert added == [] || added[1..] == [];
  }

  lemma ThreadSums(q: Code, counter: nat, k: nat, i: nat, rw: Sim.Rewrite)
    requires Retargets(q, counter, k, i, rw)
    ensures Sim.Inside(rw, q)
    ensures Sum(Sim.After(rw, q), IsSwap) == Sum(q, IsSwap) && Sum(Sim.After(rw, q), IsConcat) == Sum(q, IsConcat)
    ensures Sum(Sim.After(rw, q), IsJump) + (if k < 7 then 1 else 0) == Sum(q, IsJump)
  {
    SumThreaded(q, i, rw.j, rw.s, rw.t, rw.added, IsSwap);
    SumThreaded(q, i, rw.j, rw.s, rw.t, rw.added, IsConcat);
    SumThreaded(q, i, rw.j, rw.s, rw.t, rw.added, IsJump);
    hide Sum, Sim.After;
    NoSums(rw.added);
  }

  /** Past an opposite branch: it loses its open place, or the retargeted one is dead. */
  lemma OppositeSmaller(q: Code, counter: nat, k: nat, i: nat, rw: Sim.Rewrite)
    requires k == 9 || k == 10
    requires i < |q| && S.Edits(q, counter, k, i, rw) && S.Tidy(q, counter)
    ensures rw.Thread? && Sim.Inside(rw, q)
    ensures var q' := Sim.After(rw, q);
      Tally(q', Open(q'), 0) < Tally(q, Open(q), 0)
      || (Tally(q', Open(q'), 0) == Tally(q, Open(q), 0) && Tally(q', Live(q'), 0) < Tally(q, Live(q), 0))
  {
    hide S.Edits, Sim.After, UniqueLabels, Below, Tally;
    BranchEdit(q, counter, k, i, rw);
    OpenTally(q, counter, k, i, rw);
    LiveTally(q, counter, k, i, rw);
    if Open(q)(rw.j + 1) == 0 { LiveNoMore(q, counter, k, i, rw); }
  }

  lemma BranchSmaller(q: Code, counter: nat, k: nat, i: nat, rw: Sim.Rewrite)
    requires 4 <= k < R.SetCount && i < |q| && S.Edits(q, counter, k, i, rw) && S.Tidy(q, counter)
    requires !HasRing(q)
    ensures Sim.Inside(rw, q) && Smaller(Sim.After(rw, q), q)
  {
    EditRetargets(q, counter, k, i, rw);
    hide S.Edits, Sim.After, UniqueLabels, Below, Tally, Sum, Weight, HasRing, Open, Live;
    ThreadSums(q, counter, k, i, rw);
    if k >= 9 {
      OppositeSmaller(q, counter, k, i, rw);
    } else if k >= 7 {
      OpenTally(q, counter, k, i, rw);
      LiveTally(q, counter, k, i, rw);
      ShortWeight(q, counter, k, i, rw);
    }
  }

  lemma EditSmaller(q: Code, counter: nat, k: nat, i: nat, rw: Sim.Rewrite)
    requires k < R.SetCount && i < |q| && S.Edits(q, counter, k, i, rw) && S.Tidy(q, counter)
    requires !HasRing(q)
    ensures Sim.Inside(rw, q) && Smaller(Sim.After(rw, q), q)
  {
    hide HasRing, UniqueLabels, Below, Smaller, R.Apply, E.LastHit, Sim.After;
    EditShape(q, counter, k, i, rw);
    match rw
    case Thread(_, _, _, _, _) => BranchSmaller(q, counter, k, i, rw);
    case Pair(_, _) => PairSmaller(q, rw);
    case Replace(_, _) => ReplaceSmaller(q, rw);
  }

  lemma TurnSmaller(w: W.Window, k: nat)
    requires k < R.SetCount && S.Tidy(w.queue, w.counter) && !HasRing(W.Turn(w, k).queue)
    ensures !HasRing(w.queue)
    ensures (W.Turn(w, k) == w && W.Idle(w, k)) || Smaller(W.Turn(w, k).queue, w.queue)
  {
    hide HasRing, UniqueLabels, Smaller, R.Apply, E.LastHit, S.Edits;
    if HasRing(w.queue) { TurnRing(w, k); }
    var at := W.FirstAt(w, k, 0);
    W.TurnIdle(w, k);
    if at < |w.queue| {
      var rw := S.WindowEdit(w.queue, w.counter, k, at);
      EditShape(w.queue, w.counter, k, at, rw);
      EditSmaller(w.queue, w.counter, k, at, rw);
    }
  }

  /** From here on in the pass, no rule set applies. */
  predicate IdleFrom(w: W.Window, k: nat) {
    forall k': nat :: k <= k' < R.SetCount ==> W.Idle(w, k')
  }

  lemma {:induction false} OnwardSmaller(w: W.Window, k: nat)
    requires S.Tidy(w.queue, w.counter) && !HasRing(W.Onward(w, k).queue)
    ensures (W.Onward(w, k) == w && IdleFrom(w, k)) || Smaller(W.Onward(w, k).queue, w.queue)
    decreases R.SetCount - k
  {
    hide S.Tidy, HasRing, W.Turn, Smaller, W.Idle;
    if k < R.SetCount {
      TurnTidy(w, k);
      var w' := W.Turn(w, k);
      OnwardSmaller(w', k + 1);
      if HasRing(w'.queue) { OnwardRing(w', k + 1); }
      TurnSmaller(w, k);
      if w' != w && W.Onward(w', k + 1) != w' { SmallerTrans(W.Onward(w', k + 1).queue, w'.queue, w.queue); }
    }
  }

  lemma IdleSettled(w: W.Window)
    requires IdleFrom(w, 0)
    ensures W.Settled(w)
  {
    forall k: nat, at: nat | k < R.SetCount && at < |w.queue|
      ensures R.Apply(w.queue, w.counter, k, at).Absent?
    {
      assert W.Idle(w, k);
    }
  }

  lemma {:induction false} ComesToRest(w: W.Window)
    requires S.Tidy(w.queue, w.counter) && forall n: nat :: !HasRing(W.Passes(w, n).queue)
    ensures W.Ends(w)
    decreases Sum(w.queue, IsSwap), Sum(w.queue, IsConcat), Sum(w.queue, IsJump),
              Tally(w.queue, Open(w.queue), 0), Tally(w.queue, Live(w.queue), 0), Weight(w.queue, 0)
  {
    hide S.Tidy, HasRing, W.Onward, W.Settled, IdleFrom, Sum, Tally, Weight, Open, Live;
    var w' := W.Pass(w);
    assert W.Passes(w', 0) == w' && W.Passes(w, 1) == W.Passes(w', 0);
    OnwardSmaller(w, 0);
    OnwardRing(w, 0);
    if w' == w && IdleFrom(w, 0) {
      IdleSettled(w);
      assert W.Settled(W.Passes(w, 0));
    } else {
      forall n: nat ensures !HasRing(W.Passes(w', n).queue) {
        assert W.Passes(w, n + 1) == W.Passes(w', n);
      }
      ComesToRest(w');
      var m: nat :| W.Settled(W.Passes(w', m));
      assert W.Passes(w, m + 1) == W.Passes(w', m);
    }
  }

  /** The optimiser ends if and only if no window that it comes to has a ring. */
  lemma EndsUnlessRing(w: W.Window)
    requires S.Tidy(w.queue, w.counter)
    ensures W.Ends(w) <==> forall n: nat :: !HasRing(W.Passes(w, n).queue)
  {
    hide S.Tidy, HasRing, W.Settled, W.Pass;
    if forall n: nat :: !HasRing(W.Passes(w, n).queue) {
      ComesToRest(w);
    } else {
      var n: nat :| HasRing(W.Passes(w, n).queue);
      PassesRing(w, n);
      RingNeverEnds(W.Passes(w, n));
      if W.Ends(w) { EndsLater(w, n); }
    }
  }

  lemma EndsLater(w: W.Window, n: nat)
    requires W.Ends(w)
    ensures W.Ends(W.Passes(w, n))
  {
    hide W.Settled, W.Pass;
    var m: nat :| W.Settled(W.Passes(w, m));
    if m <= n {
      W.PassesAdd(w, m, n - m);
      W.SettledStays(W.Passes(w, m), n - m);
      assert W.Settled(W.Passes(W.Passes(w, n), 0));
    } else {
      W.PassesAdd(w, n, m - n);
    }
  }
}
