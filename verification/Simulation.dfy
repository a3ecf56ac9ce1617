/** Three ways to change a program, and the proof that each keeps its meaning:
    both programs pass through corresponding states for ever. */
module Simulation {
  import opened Assembly
  import opened Machine

  datatype Rewrite =
    | Thread(i: nat, j: nat, s: Item, t: Item, added: Code) // retarget i past the label at j
    | Pair(i: nat, j: nat)                                  // remove the two swaps
    | Replace(i: nat, item: Item)                           // another form of one instruction

  function Pos(rw: Rewrite, p: nat): nat {
    match rw
    case Thread(_, j, _, _, added) => if p <= j + 1 then p else p + |added|
    case Pair(i, j) => if p <= i || p == 0 then p else if p <= j || p == 1 then p - 1 else p - 2
    case Replace(_, _) => p
  }

  function Front(p: Code, i: nat, j: nat, s: Item): Code
    requires i < j < |p|
  {
    p[..i] + [s] + p[i + 1..j + 1]
  }

  function Back(p: Code, j: nat): Code
    requires j + 1 < |p|
  {
    p[j + 2..]
  }

  function After(rw: Rewrite, p: Code): Code
    requires Inside(rw, p)
  {
    match rw
    case Thread(i, j, s, t, added) => Front(p, i, j, s) + [t] + added + Back(p, j)
    case Pair(i, j) => p[..i] + p[i + 1..j] + p[j + 1..]
    case Replace(i, item) => p[i := item]
  }

  predicate Inside(rw: Rewrite, p: Code) {
    match rw
    case Thread(i, j, _, _, _) => i < j && j + 1 < |p|
    case Pair(i, j) => i < j < |p|
    case Replace(i, _) => i < |p|
  }

  /** The rewrite finds labels and instructions where it needs them. */
  predicate Shape(rw: Rewrite, p: Code) {
    && Inside(rw, p)
    && match rw
       case Thread(i, j, s, t, added) =>
         p[j].Label? && p[i].Instr? && p[j + 1].Instr? && s.Instr? && t.Instr? && AddsNewLabel(p, added)
       case Pair(i, j) => forall g :: i <= g <= j ==> p[g].Instr?
       case Replace(i, item) => p[i].Instr? && item.Instr?
  }

  /** The retargeted branch goes where the two branches in a row went. */
  ghost predicate Composes(first: Item, x: Name, second: Item, s: Item, added: Code)
    requires IsBranch(first) && IsBranch(second) && IsBranch(s)
  {
    forall store: Store :: Decide(s, store) == Composed(first, x, second, added, store)
  }

  function Composed(first: Item, x: Name, second: Item, added: Code, store: Store): Go
    requires IsBranch(first) && IsBranch(second)
  {
    if Decide(first, store) != To(x) then Decide(first, store)
    else if Decide(second, store) != Next then Decide(second, store)
    else if |added| == 1 && added[0].Label? then To(added[0].name)
    else Halt
  }

  ghost predicate SameDecision(a: Item, b: Item)
    requires IsBranch(a) && IsBranch(b)
  {
    forall store: Store :: Decide(a, store) == Decide(b, store)
  }

  predicate NotMentioned(p: Code, name: Name) {
    forall k :: 0 <= k < |p| ==> !Mentions(p[k], name)
  }

  predicate AddsNewLabel(p: Code, added: Code) {
    added == [] || (|added| == 1 && added[0].Label? && NotMentioned(p, added[0].name))
  }

  ghost predicate ThreadFits(rw: Rewrite, p: Code)
    requires rw.Thread? && Inside(rw, p)
  {
    && p[rw.j].Label? && Find(p, p[rw.j].name) == rw.j
    && IsBranch(p[rw.i]) && IsBranch(p[rw.j + 1]) && IsBranch(rw.s) && IsBranch(rw.t)
    && SameDecision(rw.t, p[rw.j + 1])
    && Composes(p[rw.i], p[rw.j].name, p[rw.j + 1], rw.s, rw.added)
  }

  predicate IsSwap(item: Item, x: Operand, y: Operand) {
    item == Instr(Swap, x, y, None)
  }

  predicate Avoids(item: Item, x: Operand) {
    item.Instr? ==> First(item) != x && item.b != x && item.c != x
  }

  /** An instruction with a fixed meaning: it never stops the program. */
  predicate Fixed(item: Item) { IsData(item) && !SelfAppend(item) }

  predicate BothLocal(x: Operand, y: Operand) { x.Reg? && y.Reg? && x.kind == Local && y.kind == Local }

  /** The instruction may stand between two swaps of x and y: it uses neither, and where it
      may stop the program nothing outside the procedure shows the exchange. */
  predicate Unconcerned(item: Item, x: Operand, y: Operand) {
    Near(item) && Avoids(item, x) && Avoids(item, y) && (BothLocal(x, y) || Fixed(item))
  }

  /** Two swaps of one pair, and between them only instructions that are not concerned; or
      two swaps that each name one register twice. */
  predicate PairFits(rw: Rewrite, p: Code)
    requires rw.Pair? && Inside(rw, p)
  {
    && p[rw.i].Instr? && p[rw.j].Instr?
    && var x, y := p[rw.i].a, p[rw.i].b;
    && x.Reg? && y.Reg? && IsSwap(p[rw.i], x, y)
    && if x == y then p[rw.j].a.Reg? && IsSwap(p[rw.j], p[rw.j].a, p[rw.j].a)
       else (
         && (IsSwap(p[rw.j], x, y) || IsSwap(p[rw.j], y, x))
         && forall g :: rw.i < g < rw.j ==> Unconcerned(p[g], x, y))
  }

  ghost predicate ReplaceFits(rw: Rewrite, p: Code)
    requires rw.Replace? && Inside(rw, p)
  {
    && IsData(p[rw.i]) && !SelfAppend(p[rw.i]) && IsData(rw.item) && !SelfAppend(rw.item)
    && forall store: Store :: Compute(p[rw.i], store) == Compute(rw.item, store)
  }

  ghost predicate Fits(rw: Rewrite, p: Code) {
    && Shape(rw, p)
    && match rw
       case Thread(_, _, _, _, _) => ThreadFits(rw, p)
       case Pair(_, _) => PairFits(rw, p)
       case Replace(_, _) => ReplaceFits(rw, p)
  }

  lemma FitsShape(rw: Rewrite, p: Code)
    requires Fits(rw, p)
    ensures Shape(rw, p)
  {
  }

  /* ---- Corresponding states ---- */

  /** Between the two removed swaps the registers are the other way round. */
  predicate Crossed(rw: Rewrite, pc: nat) { rw.Pair? && rw.i < pc <= rw.j }

  ghost predicate Related(rw: Rewrite, p: Code, s: State, t: State)
    requires Fits(rw, p)
  {
    if s.At? then
      && t.At? && s.pc <= |p| && t.pc == Pos(rw, s.pc) && t.world == s.world
      && t.store == (if Crossed(rw, s.pc) then Exchanged(s.store, p[rw.i].a, p[rw.i].b) else s.store)
    else t == s
  }

  /** On the way to the n-th step the world changes at most once. */
  ghost predicate OneChange(sem: Semantics, code: Code, n: nat, s: State) {
    forall c: nat :: c <= n ==>
      WorldOf(Steps(sem, code, c, s)) == WorldOf(s)
      || WorldOf(Steps(sem, code, c, s)) == WorldOf(Steps(sem, code, n, s))
  }

  ghost predicate Advance(sem: Semantics, rw: Rewrite, p: Code, s: State, t: State, a: nat, b: nat)
    requires Fits(rw, p)
  {
    && a > 0 && b > 0
    && Related(rw, p, Steps(sem, p, a, s), Steps(sem, After(rw, p), b, t))
    && OneChange(sem, p, a, s) && OneChange(sem, After(rw, p), b, t)
  }

  lemma OneStep(sem: Semantics, code: Code, s: State)
    ensures Steps(sem, code, 1, s) == Step(sem, code, s)
    ensures OneChange(sem, code, 1, s)
  {
    assert Steps(sem, code, 0, s) == s;
    assert Steps(sem, code, 1, s) == Steps(sem, code, 0, Step(sem, code, s));
  }

  /** A first step that does not change the world. */
  lemma SilentStep(sem: Semantics, code: Code, n: nat, s: State)
    requires WorldOf(Step(sem, code, s)) == WorldOf(s)
    requires OneChange(sem, code, n, Step(sem, code, s))
    ensures Steps(sem, code, n + 1, s) == Steps(sem, code, n, Step(sem, code, s))
    ensures OneChange(sem, code, n + 1, s)
  {
    forall c: nat | c <= n + 1
      ensures WorldOf(Steps(sem, code, c, s)) == WorldOf(s)
        || WorldOf(Steps(sem, code, c, s)) == WorldOf(Steps(sem, code, n + 1, s))
    {
      if c > 0 {
        assert Steps(sem, code, c, s) == Steps(sem, code, c - 1, Step(sem, code, s));
      }
    }
  }

  lemma AfterEnd(sem: Semantics, rw: Rewrite, p: Code, s: State, t: State)
    requires Fits(rw, p) && Related(rw, p, s, t) && !s.At?
    ensures Advance(sem, rw, p, s, t, 1, 1)
  {
    OneStep(sem, p, s);
    OneStep(sem, After(rw, p), t);
  }

  /* ---- Threaded branches ---- */

  lemma ThreadItems(rw: Rewrite, p: Code)
    requires Shape(rw, p) && rw.Thread?
    ensures var q := After(rw, p);
      && |q| == |p| + |rw.added|
      && q[rw.i] == rw.s && q[rw.j + 1] == rw.t
      && (rw.added != [] ==> q[rw.j + 2] == rw.added[0])
      && (forall k :: 0 <= k < |p| && k != rw.i && k != rw.j + 1 ==> q[Pos(rw, k)] == p[k])
  {
    hide After;
    ThreadNew(rw, p);
    forall k | 0 <= k < |p| && k != rw.i && k != rw.j + 1
      ensures After(rw, p)[Pos(rw, k)] == p[k]
    {
      ThreadOld(rw, p, k);
    }
  }

  lemma ThreadNew(rw: Rewrite, p: Code)
    requires Inside(rw, p) && rw.Thread?
    ensures var q := After(rw, p);
      && |q| == |p| + |rw.added|
      && q[rw.i] == rw.s && q[rw.j + 1] == rw.t
      && (rw.added != [] ==> q[rw.j + 2] == rw.added[0])
  {
    hide Front, Back, After;
    AfterThread(rw, p);
    FrontItem(p, rw.i, rw.j, rw.s, rw.i);
    BackItem(p, rw.j, rw.j + 2);
    PieceNew(Front(p, rw.i, rw.j, rw.s), rw.t, rw.added, Back(p, rw.j), rw.i);
  }

  lemma ThreadOld(rw: Rewrite, p: Code, k: nat)
    requires Inside(rw, p) && rw.Thread? && k < |p| && k != rw.i && k != rw.j + 1
    ensures Pos(rw, k) < |After(rw, p)| && After(rw, p)[Pos(rw, k)] == p[k]
  {
    hide Front, Back, After;
    AfterThread(rw, p);
    FrontItem(p, rw.i, rw.j, rw.s, k);
    BackItem(p, rw.j, k);
    PieceOld(Front(p, rw.i, rw.j, rw.s), rw.t, rw.added, Back(p, rw.j), k);
  }

  lemma AfterThread(rw: Rewrite, p: Code)
    requires Inside(rw, p) && rw.Thread?
    ensures After(rw, p) == Front(p, rw.i, rw.j, rw.s) + [rw.t] + rw.added + Back(p, rw.j)
  {
    hide Front, Back;
  }

  lemma BackItem(p: Code, j: nat, k: nat)
    requires j + 1 < |p|
    ensures |Back(p, j)| == |p| - j - 2 && (j + 2 <= k < |p| ==> Back(p, j)[k - j - 2] == p[k])
  {
  }

  lemma FrontItem(p: Code, i: nat, j: nat, s: Item, k: nat)
    requires i < j && j + 1 < |p|
    ensures var front := Front(p, i, j, s);
      |front| == j + 1 && front[i] == s && (k <= j && k != i ==> front[k] == p[k])
  {
  }

  /** A sequence of four pieces. */
  lemma PieceNew(front: Code, t: Item, added: Code, back: Code, i: nat)
    requires i < |front|
    ensures var q := front + [t] + added + back;
      && |q| == |front| + 1 + |added| + |back| && q[i] == front[i] && q[|front|] == t
      && (added != [] ==> q[|front| + 1] == added[0])
  {
  }

  lemma PieceOld(front: Code, t: Item, added: Code, back: Code, k: nat)
    requires k < |front| + 1 + |back|
    ensures var q := front + [t] + added + back;
      && |q| == |front| + 1 + |added| + |back|
      && (k < |front| ==> q[k] == front[k])
      && (k > |front| ==> q[k + |added|] == back[k - |front| - 1])
  {
  }

  lemma ThreadItem(rw: Rewrite, p: Code, k: nat)
    requires Shape(rw, p) && rw.Thread? && k < |p|
    ensures |After(rw, p)| == |p| + |rw.added| && Pos(rw, k) < |After(rw, p)|
    ensures After(rw, p)[Pos(rw, k)]
      == if k == rw.i then rw.s else if k == rw.j + 1 then rw.t else p[k]
  {
    ThreadItems(rw, p);
    hide After;
    if k != rw.i && k != rw.j + 1 { assert After(rw, p)[Pos(rw, k)] == p[k]; }
  }

  lemma ThreadInstr(rw: Rewrite, p: Code)
    requires Shape(rw, p) && rw.Thread?
    ensures rw.s.Instr? && rw.t.Instr? && (rw.added == [] || |rw.added| == 1)
    ensures rw.added != [] ==> After(rw, p)[rw.j + 2] == rw.added[0]
  {
    ThreadItems(rw, p);
    hide After;
    if rw.added != [] { assert After(rw, p)[rw.j + 2] == rw.added[0]; }
  }

  /** No definition of the name stands before the image of its first one. */
  lemma NotBefore(rw: Rewrite, p: Code, name: Name, k: nat)
    requires Shape(rw, p) && rw.Thread? && k < |After(rw, p)| && k < Pos(rw, Find(p, name))
    requires rw.added != [] ==> rw.added[0].name != name
    ensures After(rw, p)[k] != Label(name)
  {
    hide Shape, After;
    ThreadInstr(rw, p);
    if k < rw.j + 2 {
      ThreadItem(rw, p, k);
    } else if k >= rw.j + 2 + |rw.added| {
      ThreadItem(rw, p, k - |rw.added|);
    }
  }

  lemma ThreadFind(rw: Rewrite, p: Code, name: Name)
    requires Shape(rw, p) && rw.Thread?
    requires rw.added != [] ==> rw.added[0].name != name
    ensures Find(After(rw, p), name) == Pos(rw, Find(p, name))
  {
    var q := After(rw, p);
    var f := Find(p, name);
    ThreadSize(rw, p);
    if f < |p| { ThreadItem(rw, p, f); }
    hide After, Shape;
    forall k | 0 <= k < Pos(rw, f) ensures q[k] != Label(name) {
      NotBefore(rw, p, name, k);
    }
    FindIs(q, name, Pos(rw, f));
  }

  lemma ThreadSize(rw: Rewrite, p: Code)
    requires Inside(rw, p) && rw.Thread?
    ensures |After(rw, p)| == |p| + |rw.added| && Pos(rw, |p|) == |After(rw, p)|
  {
    FrontItem(p, rw.i, rw.j, rw.s, rw.i);
    hide Front;
  }

  lemma NewFind(rw: Rewrite, p: Code)
    requires Shape(rw, p) && rw.Thread? && rw.added != []
    ensures Find(After(rw, p), rw.added[0].name) == rw.j + 2
  {
    var q := After(rw, p);
    var name := rw.added[0].name;
    ThreadItems(rw, p);
    assert q[rw.j + 2] == Label(name);
    forall k | 0 <= k < rw.j + 2 ensures q[k] != Label(name) {
      if k != rw.i && k != rw.j + 1 {
        assert q[Pos(rw, k)] == p[k];
        assert !Mentions(p[k], name);
      }
    }
    FindIs(q, name, rw.j + 2);
  }

  /** Names an unchanged item jumps to are names of the old program. */
  lemma OldTarget(sem: Semantics, rw: Rewrite, p: Code, k: nat, store: Store, world: World)
    requires Fits(rw, p) && rw.Thread? && k < |p| && p[k].Instr?
    requires Exec(sem, p[k], store, world).go.To?
    ensures Find(After(rw, p), Exec(sem, p[k], store, world).go.name)
      == Pos(rw, Find(p, Exec(sem, p[k], store, world).go.name))
  {
    hide Exec, After, Fits, Find;
    var name := Exec(sem, p[k], store, world).go.name;
    FitsShape(rw, p);
    ExecMentions(sem, p[k], store, world);
    OldName(rw, p, k, name);
    ThreadFind(rw, p, name);
  }

  lemma ExecMentions(sem: Semantics, item: Item, store: Store, world: World)
    requires item.Instr? && Exec(sem, item, store, world).go.To?
    ensures Mentions(item, Exec(sem, item, store, world).go.name)
  {
    hide Compute;
  }

  /** The new label is not mentioned in the old program. */
  lemma OldName(rw: Rewrite, p: Code, k: nat, name: Name)
    requires Fits(rw, p) && rw.Thread? && k < |p| && Mentions(p[k], name)
    ensures rw.added != [] ==> rw.added[0].name != name
  {
    hide Composes, SameDecision, Find, Mentions;
  }

  /** From position j + 1 on, the second program may need one more step, over the
      new label. */
  lemma PastNewLabel(sem: Semantics, rw: Rewrite, p: Code, t: State)
    requires Fits(rw, p) && rw.Thread? && t.At? && t.pc == rw.j + 2 && rw.added != []
    ensures Step(sem, After(rw, p), t) == At(rw.j + 3, t.store, t.world)
  {
    ThreadItems(rw, p);
    assert After(rw, p)[rw.j + 2] == rw.added[0];
  }

  /** The second program's step reaches `want`, or the new label right before it. */
  ghost predicate Reaches(sem: Semantics, rw: Rewrite, p: Code, t: State, want: State)
    requires Fits(rw, p) && rw.Thread?
  {
    var t1 := Step(sem, After(rw, p), t);
    t1 == want || (rw.added != [] && WorldOf(t1) == WorldOf(t)
      && t1.At? && t1.pc == rw.j + 2 && want == At(rw.j + 3, t1.store, t1.world))
  }

  lemma StepThenLabel(sem: Semantics, rw: Rewrite, p: Code, t: State, want: State) returns (b: nat)
    requires Fits(rw, p) && rw.Thread? && Reaches(sem, rw, p, t, want)
    ensures b > 0 && Steps(sem, After(rw, p), b, t) == want && OneChange(sem, After(rw, p), b, t)
  {
    var q := After(rw, p);
    var t1 := Step(sem, q, t);
    if t1 == want {
      b := 1;
      OneStep(sem, q, t);
    } else {
      b := 2;
      PastNewLabel(sem, rw, p, t1);
      OneStep(sem, q, t1);
      SilentStep(sem, q, 1, t);
    }
  }

  function Image(rw: Rewrite, s: State): State
    requires rw.Thread?
  {
    if s.At? then At(Pos(rw, s.pc), s.store, s.world) else s
  }

  lemma SecondKeepsWorld(sem: Semantics, rw: Rewrite, p: Code, store: Store, world: World)
    requires Fits(rw, p) && rw.Thread?
    ensures Exec(sem, p[rw.j + 1], store, world).world == world
  {
  }

  /** Items at corresponding places that act alike lead to corresponding states. */
  lemma ReachAlike(sem: Semantics, rw: Rewrite, p: Code, k: nat, s: State)
    requires Fits(rw, p) && rw.Thread? && s.At? && k < |p| && p[k].Instr?
    requires Pos(rw, s.pc) < |After(rw, p)| && After(rw, p)[Pos(rw, s.pc)].Instr?
    requires s.pc == k || Exec(sem, p[k], s.store, s.world).go != Next
    requires var act := Exec(sem, p[k], s.store, s.world);
      Exec(sem, After(rw, p)[Pos(rw, s.pc)], s.store, s.world) == act
    ensures Reaches(sem, rw, p, Image(rw, s), Image(rw, Step(sem, p, At(k, s.store, s.world))))
    ensures Step(sem, p, At(k, s.store, s.world)).At?
      ==> Step(sem, p, At(k, s.store, s.world)).pc <= |p|
  {
    hide Exec, Fits, Find;
    FitsShape(rw, p);
    SecondKeepsWorld(sem, rw, p, s.store, s.world);
    var act := Exec(sem, p[k], s.store, s.world);
    if act.go.To? {
      OldTarget(sem, rw, p, k, s.store, s.world);
    }
  }

  lemma ReachElsewhere(sem: Semantics, rw: Rewrite, p: Code, s: State)
    requires Fits(rw, p) && rw.Thread? && s.At? && s.pc <= |p| && s.pc != rw.i
    ensures Reaches(sem, rw, p, Image(rw, s), Image(rw, Step(sem, p, s)))
    ensures Step(sem, p, s).At? ==> Step(sem, p, s).pc <= |p|
  {
    if s.pc == |p| {
      ThreadItem(rw, p, rw.i);
      hide After, Find, Fits;
    } else {
      ThreadItem(rw, p, s.pc);
      hide After, Find, Composes, AddsNewLabel;
      if p[s.pc].Instr? {
        hide Composes, AddsNewLabel;
        ReachAlike(sem, rw, p, s.pc, s);
      }
    }
  }

  lemma ThreadElsewhere(sem: Semantics, rw: Rewrite, p: Code, s: State, t: State) returns (b: nat)
    requires Fits(rw, p) && rw.Thread? && Related(rw, p, s, t) && s.At? && s.pc != rw.i
    ensures Advance(sem, rw, p, s, t, 1, b)
  {
    ReachElsewhere(sem, rw, p, s);
    hide Step, Steps, After, ThreadFits, Reaches, OneChange;
    OneStep(sem, p, s);
    b := StepThenLabel(sem, rw, p, t, Image(rw, Step(sem, p, s)));
  }

  lemma ReachTaken(sem: Semantics, rw: Rewrite, p: Code, s: State)
    requires Fits(rw, p) && rw.Thread? && s.At? && s.pc == rw.j + 1
    requires Decide(p[rw.i], s.store) == Go.To(p[rw.j].name)
    ensures Reaches(sem, rw, p, At(rw.i, s.store, s.world), Image(rw, Step(sem, p, s)))
    ensures WorldOf(Step(sem, p, s)) == s.world
    ensures Step(sem, p, s).At? ==> Step(sem, p, s).pc <= |p|
  {
    var q := After(rw, p);
    ThreadItems(rw, p);
    assert Decide(rw.s, s.store) == Composed(p[rw.i], p[rw.j].name, p[rw.j + 1], rw.added, s.store);
    hide After, Find;
    if Decide(p[rw.j + 1], s.store) != Next {
      hide Composes, SameDecision;
      ReachAlike(sem, rw, p, rw.j + 1, At(rw.i, s.store, s.world));
    } else {
      NewFind(rw, p);
      hide Composes, SameDecision;
    }
  }

  lemma TwoBranches(sem: Semantics, rw: Rewrite, p: Code, s: State)
    requires Fits(rw, p) && rw.Thread? && s.At? && s.pc == rw.i
    requires Decide(p[rw.i], s.store) == Go.To(p[rw.j].name)
    requires WorldOf(Step(sem, p, At(rw.j + 1, s.store, s.world))) == s.world
    ensures Steps(sem, p, 3, s) == Step(sem, p, At(rw.j + 1, s.store, s.world))
    ensures OneChange(sem, p, 3, s)
  {
    var s1 := At(rw.j, s.store, s.world);
    var s2 := At(rw.j + 1, s.store, s.world);
    assert Step(sem, p, s) == s1 && Step(sem, p, s1) == s2;
    OneStep(sem, p, s2);
    SilentStep(sem, p, 1, s1);
    SilentStep(sem, p, 2, s);
  }

  /** The first branch goes to the label, over it, and decides again; the
      retargeted branch does all of it in one step. */
  lemma ThreadTaken(sem: Semantics, rw: Rewrite, p: Code, s: State, t: State) returns (b: nat)
    requires Fits(rw, p) && rw.Thread? && Related(rw, p, s, t) && s.At? && s.pc == rw.i
    requires Decide(p[rw.i], s.store) == Go.To(p[rw.j].name)
    ensures Advance(sem, rw, p, s, t, 3, b)
  {
    var s2 := At(rw.j + 1, s.store, s.world);
    ReachTaken(sem, rw, p, s2);
    hide Step, Steps, After, Reaches, OneChange, Decide;
    TwoBranches(sem, rw, p, s);
    b := StepThenLabel(sem, rw, p, t, Image(rw, Step(sem, p, s2)));
  }

  lemma ThreadAdvance(sem: Semantics, rw: Rewrite, p: Code, s: State, t: State) returns (a: nat, b: nat)
    requires Fits(rw, p) && rw.Thread? && Related(rw, p, s, t)
    ensures Advance(sem, rw, p, s, t, a, b)
  {
    if !s.At? {
      a, b := 1, 1;
      AfterEnd(sem, rw, p, s, t);
    } else if s.pc != rw.i {
      a := 1;
      b := ThreadElsewhere(sem, rw, p, s, t);
    } else if Decide(p[rw.i], s.store) == Go.To(p[rw.j].name) {
      a := 3;
      b := ThreadTaken(sem, rw, p, s, t);
    } else {
      a, b := 1, 1;
      ThreadItems(rw, p);
      OneStep(sem, p, s);
      OneStep(sem, After(rw, p), t);
      assert Decide(rw.s, s.store) == Composed(p[rw.i], p[rw.j].name, p[rw.j + 1], rw.added, s.store);
      if Decide(p[rw.i], s.store).To? {
        OldTarget(sem, rw, p, rw.i, s.store, s.world);
      }
    }
  }

  /* ---- Removed swaps ---- */

  lemma PairItem(rw: Rewrite, p: Code, k: nat)
    requires Shape(rw, p) && rw.Pair? && k < |p| && k != rw.i && k != rw.j
    ensures Pos(rw, k) < |After(rw, p)| && After(rw, p)[Pos(rw, k)] == p[k]
  {
  }

  lemma PairFind(rw: Rewrite, p: Code, name: Name)
    requires Shape(rw, p) && rw.Pair?
    ensures Find(After(rw, p), name) == Pos(rw, Find(p, name)) && !Crossed(rw, Find(p, name))
  {
    var q := After(rw, p);
    var f := Find(p, name);
    forall k | 0 <= k < Pos(rw, f) ensures q[k] != Label(name) {
      var k0 := if k < rw.i then k else if k < rw.j - 1 then k + 1 else k + 2;
      assert Pos(rw, k0) == k;
      PairItem(rw, p, k0);
    }
    if f < |p| { PairItem(rw, p, f); }
    FindIs(q, name, Pos(rw, f));
  }

  /** An instruction that uses neither register commutes with their exchange. */
  lemma QuietCommutes(sem: Semantics, item: Item, store: Store, world: World, x: Operand, y: Operand)
    requires Near(item) && Avoids(item, x) && Avoids(item, y) && x.Reg? && y.Reg?
    ensures var act := Exec(sem, item, store, world);
      Exec(sem, item, Exchanged(store, x, y), world) == Act(Exchanged(act.store, x, y), act.world, act.go)
    ensures !Exec(sem, item, store, world).go.To?
    ensures Fixed(item) ==> Exec(sem, item, store, world).go == Next
  {
    var crossed := Exchanged(store, x, y);
    assert Read(crossed, First(item)) == Read(store, First(item));
    assert Read(crossed, item.b) == Read(store, item.b);
    assert Read(crossed, item.c) == Read(store, item.c);
    if Fixed(item) {
      if item.op == Swap {
        PutCommutes(store, x, y, item.a, store[item.b]);
        PutCommutes(store[item.a := store[item.b]], x, y, item.b, store[item.a]);
      } else {
        PutCommutes(store, x, y, item.a, Compute(item, store)[item.a]);
      }
    } else {
      var e := sem.near(item, Read(store, First(item)), Read(store, item.b), Read(store, item.c), world);
      PutCommutes(store, x, y, item.c, e.c);
      var s1 := Put(store, item.c, e.c);
      PutCommutes(s1, x, y, item.b, e.b);
      PutCommutes(Put(s1, item.b, e.b), x, y, First(item), e.a);
    }
  }

  lemma PutCommutes(store: Store, x: Operand, y: Operand, o: Operand, v: Value)
    requires x.Reg? && y.Reg? && o != x && o != y
    ensures Put(Exchanged(store, x, y), o, v) == Exchanged(Put(store, o, v), x, y)
  {
  }

  lemma SharedExchanged(store: Store, x: Operand, y: Operand)
    requires BothLocal(x, y)
    ensures Shared(Exchanged(store, x, y)) == Shared(store)
  {
  }

  lemma ExchangeSame(store: Store, x: Operand)
    requires x.Reg?
    ensures Exchanged(store, x, x) == store
  {
  }

  lemma ExchangeTwice(store: Store, x: Operand, y: Operand)
    requires x.Reg? && y.Reg?
    ensures Exchanged(Exchanged(store, x, y), x, y) == store
    ensures Exchanged(store, x, y) == Exchanged(store, y, x)
  {
  }

  /** Where both programs have the same item next, one step each. */
  lemma PairTogether(sem: Semantics, rw: Rewrite, p: Code, s: State, t: State)
    requires Fits(rw, p) && rw.Pair? && Related(rw, p, s, t)
    requires s.At? ==> s.pc != rw.i && s.pc != rw.j
    ensures Advance(sem, rw, p, s, t, 1, 1)
  {
    OneStep(sem, p, s);
    OneStep(sem, After(rw, p), t);
    hide Steps, OneChange;
    if s.At? && s.pc < |p| {
      PairItem(rw, p, s.pc);
      hide After;
      if p[s.pc].Instr? {
        if p[rw.i].a == p[rw.i].b {
          PairIdle(sem, rw, p, s, t);
        } else {
          PairApart(sem, rw, p, s, t);
        }
        hide *;
      }
    }
  }

  /** The pair exchanges a register with itself. */
  lemma PairIdle(sem: Semantics, rw: Rewrite, p: Code, s: State, t: State)
    requires Fits(rw, p) && rw.Pair? && Related(rw, p, s, t)
    requires s.At? && s.pc != rw.i && s.pc != rw.j && s.pc < |p| && p[s.pc].Instr? && p[rw.i].a == p[rw.i].b
    ensures Related(rw, p, Step(sem, p, s), Step(sem, After(rw, p), t))
  {
    PairItem(rw, p, s.pc);
    hide After;
    var act := Exec(sem, p[s.pc], s.store, s.world);
    ExchangeSame(s.store, p[rw.i].a);
    ExchangeSame(act.store, p[rw.i].a);
    if act.go.To? { PairFind(rw, p, act.go.name); }
    hide Exec, Exchanged;
  }

  /** The pair exchanges two registers: what stands between commutes with that. */
  lemma PairApart(sem: Semantics, rw: Rewrite, p: Code, s: State, t: State)
    requires Fits(rw, p) && rw.Pair? && Related(rw, p, s, t)
    requires s.At? && s.pc != rw.i && s.pc != rw.j && s.pc < |p| && p[s.pc].Instr? && p[rw.i].a != p[rw.i].b
    ensures Related(rw, p, Step(sem, p, s), Step(sem, After(rw, p), t))
  {
    PairItem(rw, p, s.pc);
    hide After;
    var act := Exec(sem, p[s.pc], s.store, s.world);
    if Crossed(rw, s.pc) {
      QuietCommutes(sem, p[s.pc], s.store, s.world, p[rw.i].a, p[rw.i].b);
      if BothLocal(p[rw.i].a, p[rw.i].b) { SharedExchanged(act.store, p[rw.i].a, p[rw.i].b); }
    } else if act.go.To? {
      PairFind(rw, p, act.go.name);
    }
    hide Exec, Exchanged;
  }

  /** The first program takes the second swap alone. */
  lemma SecondSwap(sem: Semantics, rw: Rewrite, p: Code, s: State, t: State)
    requires Fits(rw, p) && rw.Pair? && Related(rw, p, s, t) && s.At? && s.pc == rw.j
    ensures Step(sem, p, s) == At(rw.j + 1, t.store, s.world)
    ensures Related(rw, p, Step(sem, p, s), t)
  {
    ExchangeTwice(s.store, p[rw.i].a, p[rw.i].b);
  }

  lemma FirstSwap(sem: Semantics, rw: Rewrite, p: Code, s: State, t: State)
    requires Fits(rw, p) && rw.Pair? && Related(rw, p, s, t) && s.At? && s.pc == rw.i
    ensures Step(sem, p, s) == At(rw.i + 1, Exchanged(s.store, p[rw.i].a, p[rw.i].b), s.world)
    ensures Related(rw, p, Step(sem, p, s), t)
  {
    ExchangeTwice(s.store, p[rw.i].a, p[rw.i].b);
  }

  /** The first program takes one silent step more. */
  lemma OneAhead(sem: Semantics, rw: Rewrite, p: Code, s: State, t: State, a: nat, b: nat)
    requires Fits(rw, p) && WorldOf(Step(sem, p, s)) == WorldOf(s)
    requires Advance(sem, rw, p, Step(sem, p, s), t, a, b)
    ensures Advance(sem, rw, p, s, t, a + 1, b)
  {
    SilentStep(sem, p, a, s);
  }

  lemma PairAdvance(sem: Semantics, rw: Rewrite, p: Code, s: State, t: State) returns (a: nat, b: nat)
    requires Fits(rw, p) && rw.Pair? && Related(rw, p, s, t)
    ensures Advance(sem, rw, p, s, t, a, b)
  {
    a, b := 1, 1;
    if s.At? && s.pc == rw.j {
      SecondSwap(sem, rw, p, s, t);
      PairTogether(sem, rw, p, Step(sem, p, s), t);
      OneAhead(sem, rw, p, s, t, 1, 1);
      a := 2;
    } else if s.At? && s.pc == rw.i {
      FirstSwap(sem, rw, p, s, t);
      var s1 := Step(sem, p, s);
      if rw.i + 1 == rw.j {
        SecondSwap(sem, rw, p, s1, t);
        PairTogether(sem, rw, p, Step(sem, p, s1), t);
        OneAhead(sem, rw, p, s1, t, 1, 1);
        OneAhead(sem, rw, p, s, t, 2, 1);
        a := 3;
      } else {
        PairTogether(sem, rw, p, s1, t);
        OneAhead(sem, rw, p, s, t, 1, 1);
        a := 2;
      }
    } else {
      PairTogether(sem, rw, p, s, t);
    }
  }

  /* ---- Replaced instruction ---- */

  lemma ReplaceFind(rw: Rewrite, p: Code, name: Name)
    requires Shape(rw, p) && rw.Replace?
    ensures Find(After(rw, p), name) == Find(p, name)
  {
    FindIs(After(rw, p), name, Find(p, name));
  }

  lemma ReplaceAdvance(sem: Semantics, rw: Rewrite, p: Code, s: State, t: State)
    requires Fits(rw, p) && rw.Replace? && Related(rw, p, s, t)
    ensures Advance(sem, rw, p, s, t, 1, 1)
  {
    OneStep(sem, p, s);
    OneStep(sem, After(rw, p), t);
    hide Steps, OneChange;
    if s.At? && s.pc < |p| && p[s.pc].Instr? {
      var act := Exec(sem, p[s.pc], s.store, s.world);
      assert Exec(sem, After(rw, p)[s.pc], s.store, s.world) == act;
      if act.go.To? { ReplaceFind(rw, p, act.go.name); }
    }
  }

  /* ---- Whole runs ---- */

  lemma AnyAdvance(sem: Semantics, rw: Rewrite, p: Code, s: State, t: State) returns (a: nat, b: nat)
    requires Fits(rw, p) && Related(rw, p, s, t)
    ensures Advance(sem, rw, p, s, t, a, b)
  {
    match rw
    case Thread(_, _, _, _, _) => a, b := ThreadAdvance(sem, rw, p, s, t);
    case Pair(_, _) => a, b := PairAdvance(sem, rw, p, s, t);
    case Replace(_, _) => a, b := 1, 1; ReplaceAdvance(sem, rw, p, s, t);
  }

  /** However far the runs go, they meet again in related states. */
  lemma {:induction false} Meet(sem: Semantics, rw: Rewrite, p: Code, s: State, t: State, n: nat)
      returns (a: nat, b: nat)
    requires Fits(rw, p) && Related(rw, p, s, t)
    ensures a >= n && b >= n
    ensures Related(rw, p, Steps(sem, p, a, s), Steps(sem, After(rw, p), b, t))
    decreases n
  {
    hide ThreadFits, PairFits, ReplaceFits, Related, OneChange, After, Step;
    if n == 0 {
      a, b := 0, 0;
    } else {
      var a1, b1 := AnyAdvance(sem, rw, p, s, t);
      var a2, b2 := Meet(sem, rw, p, Steps(sem, p, a1, s), Steps(sem, After(rw, p), b1, t), n - 1);
      StepsAdd(sem, p, a1, a2, s);
      StepsAdd(sem, After(rw, p), b1, b2, t);
      a, b := a1 + a2, b1 + b2;
    }
  }

  lemma SameEnds(sem: Semantics, rw: Rewrite, p: Code, s: State, t: State, end: State)
    requires Fits(rw, p) && Related(rw, p, s, t)
    ensures Ends(sem, p, s, end) <==> Ends(sem, After(rw, p), t, end)
  {
    hide ThreadFits, PairFits, ReplaceFits, After, Step;
    var q := After(rw, p);
    if Ends(sem, p, s, end) {
      var n: nat :| Steps(sem, p, n, s) == end;
      var a, b := Meet(sem, rw, p, s, t, n);
      StepsAdd(sem, p, n, a - n, s);
      EndStays(sem, p, a - n, end);
      assert Steps(sem, q, b, t) == end;
    }
    if Ends(sem, q, t, end) {
      var n: nat :| Steps(sem, q, n, t) == end;
      var a, b := Meet(sem, rw, p, s, t, n);
      StepsAdd(sem, q, n, b - n, t);
      EndStays(sem, q, b - n, end);
      assert Steps(sem, p, a, s) == end;
    }
  }

  lemma {:induction false} SeenInSecond(sem: Semantics, rw: Rewrite, p: Code, s: State, t: State, n: nat)
    requires Fits(rw, p) && Related(rw, p, s, t)
    ensures Sees(sem, After(rw, p), t, WorldOf(Steps(sem, p, n, s)))
    decreases n
  {
    hide ThreadFits, PairFits, ReplaceFits, After, Step;
    var q := After(rw, p);
    var a, b := AnyAdvance(sem, rw, p, s, t);
    var s1, t1 := Steps(sem, p, a, s), Steps(sem, q, b, t);
    assert WorldOf(Steps(sem, q, 0, t)) == WorldOf(s);
    if n > a {
      SeenInSecond(sem, rw, p, s1, t1, n - a);
      StepsAdd(sem, p, a, n - a, s);
      var m: nat :| WorldOf(Steps(sem, q, m, t1)) == WorldOf(Steps(sem, p, n - a, s1));
      StepsAdd(sem, q, b, m, t);
      assert WorldOf(Steps(sem, q, b + m, t)) == WorldOf(Steps(sem, p, n, s));
    }
  }

  lemma {:induction false} SeenInFirst(sem: Semantics, rw: Rewrite, p: Code, s: State, t: State, n: nat)
    requires Fits(rw, p) && Related(rw, p, s, t)
    ensures Sees(sem, p, s, WorldOf(Steps(sem, After(rw, p), n, t)))
    decreases n
  {
    hide ThreadFits, PairFits, ReplaceFits, After, Step;
    var q := After(rw, p);
    var a, b := AnyAdvance(sem, rw, p, s, t);
    var s1, t1 := Steps(sem, p, a, s), Steps(sem, q, b, t);
    assert WorldOf(Steps(sem, p, 0, s)) == WorldOf(t);
    if n > b {
      SeenInFirst(sem, rw, p, s1, t1, n - b);
      StepsAdd(sem, q, b, n - b, t);
      var m: nat :| WorldOf(Steps(sem, p, m, s1)) == WorldOf(Steps(sem, q, n - b, t1));
      StepsAdd(sem, p, a, m, s);
      assert WorldOf(Steps(sem, p, a + m, s)) == WorldOf(Steps(sem, q, n, t));
    }
  }

  lemma SameFromRelated(sem: Semantics, rw: Rewrite, p: Code, s: State, t: State)
    requires Fits(rw, p) && Related(rw, p, s, t)
    ensures SameRuns(sem, p, After(rw, p), s, t)
  {
    var q := After(rw, p);
    forall end: State ensures Ends(sem, p, s, end) <==> Ends(sem, q, t, end) {
      SameEnds(sem, rw, p, s, t, end);
    }
    forall w: World ensures Sees(sem, p, s, w) <==> Sees(sem, q, t, w) {
      if Sees(sem, p, s, w) {
        var n: nat :| WorldOf(Steps(sem, p, n, s)) == w;
        SeenInSecond(sem, rw, p, s, t, n);
      }
      if Sees(sem, q, t, w) {
        var n: nat :| WorldOf(Steps(sem, q, n, t)) == w;
        SeenInFirst(sem, rw, p, s, t, n);
      }
    }
  }

  lemma LabelsKept(rw: Rewrite, p: Code, name: Name)
    requires Shape(rw, p) && Defines(p, name)
    ensures Defines(After(rw, p), name)
    ensures Find(After(rw, p), name) == Pos(rw, Find(p, name)) && !Crossed(rw, Find(p, name))
  {
    match rw
    case Thread(_, _, _, _, _) => ThreadFind(rw, p, name); ThreadItem(rw, p, Find(p, name));
    case Pair(_, _) => PairFind(rw, p, name); PairItem(rw, p, Find(p, name));
    case Replace(_, _) => ReplaceFind(rw, p, name);
  }

  /** A fitting rewrite keeps the meaning of the whole program. */
  lemma RewriteKeepsMeaning(sem: Semantics, rw: Rewrite, p: Code)
    requires Fits(rw, p)
    ensures SameMeaning(sem, p, After(rw, p))
  {
    var q := After(rw, p);
    forall name | Defines(p, name)
      ensures Defines(q, name) && SameFrom(sem, p, q, Find(p, name), Find(q, name))
    {
      LabelsKept(rw, p, name);
      forall store: Store, world: World
        ensures SameRuns(sem, p, q, At(Find(p, name), store, world), At(Find(q, name), store, world))
      {
        SameFromRelated(sem, rw, p, At(Find(p, name), store, world), At(Find(q, name), store, world));
      }
    }
  }
}
