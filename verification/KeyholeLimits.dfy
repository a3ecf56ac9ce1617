/** Where the keyhole rules keep the meaning, exactly: the matcher compares register
    numbers and not kinds, and sees only registers an instruction names. And windows on
    which they never come to rest, or do although branches go round. */
module KeyholeLimits {
  import opened Assembly
  import M = Machine
  import Sim = Simulation
  import R = KeyholeRules
  import E = KeyholeEffect
  import S = KeyholeSound
  import W = KeyholePasses
  import K = KeyholeMatch
  import Y = KeyholeRing
  import X = KeyholeExact
  import A = KeyholeRunaway

  const Zero := M.Value(0, [], 0, 0, 0)
  const One := M.Value(1, [7], 1, 0, 0)

  ghost function Only(r: Operand, v: M.Value): M.Store {
    imap o: Operand | o.Reg? :: if o == r then v else Zero
  }

  /** Two conditional branches whose registers share a number may be merged exactly
      if they are the same register. */
  lemma BranchExact(k: nat, first: Item, x: Name, second: Item, s: Item, t: Item, new': Name, added: Code)
    requires k >= 7 && E.BranchRule(k, first, x, second, s, t, new', added)
    ensures M.IsBranch(first) && M.IsBranch(second) && M.IsBranch(s) && M.IsBranch(t)
    ensures (Sim.SameDecision(t, second) && Sim.Composes(first, x, second, s, added)) <==> first.b == second.b
  {
    if first.b != second.b {
      assert M.Decide(t, Only(first.b, One)) != M.Decide(second, Only(first.b, One));
    }
  }

  /** Two adjacent swaps of equal numbers cancel exactly if they name the same pair,
      or each names one register twice. */
  lemma SwapExact(x: Operand, y: Operand, x': Operand, y': Operand)
    requires x.Reg? && y.Reg? && x'.Reg? && y'.Reg?
    ensures (forall store: M.Store :: M.Exchanged(M.Exchanged(store, x, y), x', y') == store)
      <==> (x == x' && y == y') || (x == y' && y == x') || (x == y && x' == y')
  {
    if (x == x' && y == y') || (x == y' && y == x') || (x == y && x' == y') {
      forall store: M.Store ensures M.Exchanged(M.Exchanged(store, x, y), x', y') == store {
        Sim.ExchangeTwice(store, x, y);
      }
    } else {
      var r := if x != y then x else x';
      var store := Only(r, One);
      assert M.Exchanged(M.Exchanged(store, x, y), x', y')[r].num == 0;
    }
  }

  /** A concatenation whose first two register numbers agree acts as the append, for
      every meaning of the other instructions, exactly if they are one register and the
      third is another. */
  lemma AppendExact(a: Operand, b: Operand, c: Operand)
    requires a.Reg? && b.Reg? && c.Reg? && a.number == b.number
    ensures SameAct(Instr(Concat, a, b, c), Instr(Append, a, c, None)) <==> a == b && a != c
    ensures SameAct(Instr(Sconcat, a, b, c), Instr(Sappend, a, c, None)) <==> a == b && a != c
  {
    hide SameAct;
    if a == b && a != c {
      AppendActs(a, c);
    } else {
      AppendDiffers(a, b, c);
    }
  }

  ghost predicate SameAct(x: Item, y: Item)
    requires x.Instr? && y.Instr?
  {
    forall sem, store: M.Store, world :: M.Exec(sem, x, store, world) == M.Exec(sem, y, store, world)
  }

  lemma DataExec(sem: M.Semantics, item: Item, store: M.Store, world: M.World)
    requires M.IsData(item) && !M.SelfAppend(item)
    ensures M.Exec(sem, item, store, world) == M.Act(M.Compute(item, store), world, M.Next)
  {
    hide M.Compute;
  }

  lemma AppendActs(a: Operand, c: Operand)
    requires a.Reg? && c.Reg? && a != c
    ensures SameAct(Instr(Concat, a, a, c), Instr(Append, a, c, None))
    ensures SameAct(Instr(Sconcat, a, a, c), Instr(Sappend, a, c, None))
  {
    hide M.Exec;
    forall sem, store: M.Store, world
      ensures M.Exec(sem, Instr(Concat, a, a, c), store, world) == M.Exec(sem, Instr(Append, a, c, None), store, world)
      ensures M.Exec(sem, Instr(Sconcat, a, a, c), store, world) == M.Exec(sem, Instr(Sappend, a, c, None), store, world)
    {
      DataExec(sem, Instr(Concat, a, a, c), store, world);
      DataExec(sem, Instr(Append, a, c, None), store, world);
      DataExec(sem, Instr(Sconcat, a, a, c), store, world);
      DataExec(sem, Instr(Sappend, a, c, None), store, world);
    }
  }

  /** Appending to itself is left to the other instructions, which may stop the program;
      and from another register something else is appended. */
  lemma AppendDiffers(a: Operand, b: Operand, c: Operand)
    requires a.Reg? && b.Reg? && c.Reg? && a.number == b.number && !(a == b && a != c)
    ensures !SameAct(Instr(Concat, a, b, c), Instr(Append, a, c, None))
    ensures !SameAct(Instr(Sconcat, a, b, c), Instr(Sappend, a, c, None))
  {
    hide M.Exec;
    var sem, store := ExitOnly(), Only(a, One);
    DataExec(sem, Instr(Concat, a, b, c), store, []);
    DataExec(sem, Instr(Sconcat, a, b, c), store, []);
    if a == c {
      SelfStops(a, store);
    } else {
      DataExec(sem, Instr(Append, a, c, None), store, []);
      DataExec(sem, Instr(Sappend, a, c, None), store, []);
      OtherSource(a, b, c);
    }
  }

  lemma SelfStops(a: Operand, store: M.Store)
    requires a.Reg?
    ensures M.Exec(ExitOnly(), Instr(Append, a, a, None), store, []).go == M.Halt
    ensures M.Exec(ExitOnly(), Instr(Sappend, a, a, None), store, []).go == M.Halt
  {
  }

  lemma OtherSource(a: Operand, b: Operand, c: Operand)
    requires a.Reg? && b.Reg? && c.Reg? && a != b && a != c
    ensures M.Compute(Instr(Concat, a, b, c), Only(a, One)) != M.Compute(Instr(Append, a, c, None), Only(a, One))
    ensures M.Compute(Instr(Sconcat, a, b, c), Only(a, One)) != M.Compute(Instr(Sappend, a, c, None), Only(a, One))
  {
    var store := Only(a, One);
    assert |M.Compute(Instr(Concat, a, b, c), store)[a].bytes| == 0;
    assert |M.Compute(Instr(Append, a, c, None), store)[a].bytes| == 1;
    assert |M.Compute(Instr(Sconcat, a, b, c), store)[a].bytes| == 1;
    assert |M.Compute(Instr(Sappend, a, c, None), store)[a].bytes| == 2;
  }

  ghost function Incremented(store: M.Store, n: nat): M.Store {
    store[Reg(Local, n) := store[Reg(Local, n)].(num := store[Reg(Local, n)].num + 1)]
  }

  /** An instruction that adds one to a register it does not name may stand between
      two removed swaps exactly if neither swap concerns that register. */
  lemma ImplicitGapExact(x: Operand, y: Operand, n: nat)
    requires x.Reg? && y.Reg?
    ensures (forall store: M.Store ::
        M.Exchanged(Incremented(M.Exchanged(store, x, y), n), x, y) == Incremented(store, n))
      <==> x == y || (x != Reg(Local, n) && y != Reg(Local, n))
  {
    var r := Reg(Local, n);
    if x == y || (x != r && y != r) {
      forall store: M.Store
        ensures M.Exchanged(Incremented(M.Exchanged(store, x, y), n), x, y) == Incremented(store, n)
      {
        Sim.ExchangeTwice(store, x, y);
        if x == y {
          assert M.Exchanged(store, x, y) == store;
          assert M.Exchanged(Incremented(store, n), x, y) == Incremented(store, n);
        } else {
          Sim.PutCommutes(store, x, y, r, store[r].(num := store[r].num + 1));
          Sim.ExchangeTwice(Incremented(store, n), x, y);
        }
      }
    } else {
      var store := Only(r, Zero);
      assert M.Exchanged(Incremented(M.Exchanged(store, x, y), n), x, y)[r].num == 0;
      assert Incremented(store, n)[r].num == 1;
    }
  }

  /** Yet the rule removes the swaps around any instruction that uses registers it does
      not name. */
  lemma ImplicitGapMatches(x: Operand, y: Operand, op: Op, counter: nat)
    requires x.Reg? && y.Reg? && (op.Count? || op.Implicit?)
    ensures var inc := Instr(op, None, None, None);
      var swap := Instr(Swap, x, y, None);
      R.Apply([swap, inc, swap], counter, 0, 0) == R.Present(R.Rewritten([inc], counter))
  {
    var inc, swap := Instr(op, None, None, None), Instr(Swap, x, y, None);
    var q := [swap, inc, swap];
    var rules := R.Set(0);
    var m := R.OpMap(map[0 := x, 1 := y], map[], map[]);
    assert R.Unmapped.Map(swap, rules[0].input) == R.Present(m);
    assert rules[1..] == [rules[1]] && rules[1..][1..] == [];
    assert !m.CanMap(inc, rules[1].input) && m.CanMap(swap, rules[1].input);
    assert R.Scan(q, 3, m, []) == R.Present(R.Match(m, []));
    assert R.Scan(q, 2, m, rules[1..]).Present?;
    assert R.Scan(q, 1, m, rules[1..]).Present?;
    var j := E.SwapEffect(q, counter, 0, 0);
    assert j == 2;
    assert E.WithoutPair(q, 0, 2) == [inc];
  }

  /** A procedure that swaps two registers around an instruction. */
  function Around(name: string, item: Item, x: Operand, y: Operand): Code {
    [Label(Entry(name)), Instr(Swap, x, y, None), item, Instr(Swap, x, y, None)]
  }

  /** The instructions without a fixed meaning tell what they see and stop. */
  ghost function Telling(): M.Semantics {
    M.Semantics((item, a: M.Value, b: M.Value, c: M.Value, w) => M.NearEffect(a, b, c, [a.num, b.num, c.num], M.Stop),
                (item, s: M.Store, w) => M.FarEffect(s, w, M.Stop))
  }

  /** Around an instruction of no fixed meaning the two swaps may be removed, for every
      such meaning, exactly if it uses neither register and both are local. */
  lemma GapExact(name: string, item: Item, x: Operand, y: Operand)
    requires M.Near(item) && !Sim.Fixed(item) && x.Reg? && y.Reg? && x != y
    ensures (forall sem :: M.SameMeaning(sem, Around(name, item, x, y), [Label(Entry(name)), item]))
      <==> Sim.Unconcerned(item, x, y)
  {
    var p, q := Around(name, item, x, y), [Label(Entry(name)), item];
    if Sim.Unconcerned(item, x, y) {
      var rw := Sim.Pair(1, 3);
      assert Sim.Fits(rw, p) && Sim.After(rw, p) == q;
      forall sem ensures M.SameMeaning(sem, p, q) { Sim.RewriteKeepsMeaning(sem, rw, p); }
    } else {
      var r := if !Sim.Avoids(item, x) || (Sim.Avoids(item, y) && x.kind != Local) then x else y;
      GapShows(name, item, x, y, r);
    }
  }

  lemma GapShows(name: string, item: Item, x: Operand, y: Operand, r: Operand)
    requires M.Near(item) && !Sim.Fixed(item) && x.Reg? && y.Reg? && x != y
    requires (r == x || r == y) && (!Sim.Avoids(item, r) || r.kind != Local)
    ensures !M.SameMeaning(Telling(), Around(name, item, x, y), [Label(Entry(name)), item])
  {
    var sem, p, q := Telling(), Around(name, item, x, y), [Label(Entry(name)), item];
    var s := M.At(0, Only(r, One), []);
    FindIs(p, Entry(name), 0);
    FindIs(q, Entry(name), 0);
    AroundRun(name, item, x, y, s.store);
    BareRun(name, item, s.store);
    TellsApart(item, x, y, r);
    var end, other := Told(item, M.Exchanged(s.store, x, y)), Told(item, s.store);
    hide M.Steps, Told;
    if M.SameMeaning(sem, p, q) {
      assert M.Defines(p, Entry(name));
      assert M.SameFrom(sem, p, q, 0, 0);
      assert M.SameRuns(sem, p, q, s, s);
      assert M.Ends(sem, p, s, end);
      assert M.Ends(sem, q, s, end);
      var n: nat :| M.Steps(sem, q, n, s) == end;
      OneEnd(sem, q, s, 2, other, n, end);
      assert false;
    }
  }

  /** Where the instruction stops, and what it has told. */
  ghost function Told(item: Item, store: M.Store): M.State
    requires item.Instr?
  {
    M.Done([M.Read(store, M.First(item)).num, M.Read(store, item.b).num, M.Read(store, item.c).num], M.Shared(store))
  }

  lemma TellsApart(item: Item, x: Operand, y: Operand, r: Operand)
    requires item.Instr? && x.Reg? && y.Reg? && x != y
    requires (r == x || r == y) && (!Sim.Avoids(item, r) || r.kind != Local)
    ensures var store := Only(r, One); Told(item, M.Exchanged(store, x, y)) != Told(item, store)
  {
    var store := Only(r, One);
    var crossed := M.Exchanged(store, x, y);
    assert store[r].num == 1 && crossed[r].num == 0;
    if r.kind != Local { assert M.Shared(store)[r] != M.Shared(crossed)[r]; }
  }

  lemma Tells(item: Item, store: M.Store)
    requires M.Near(item) && !Sim.Fixed(item)
    ensures var act := M.Exec(Telling(), item, store, []);
      M.Done(act.world, M.Shared(act.store)) == Told(item, store) && act.go == M.Halt
  {
    PutBack(store, item.c);
    PutBack(store, item.b);
    PutBack(store, M.First(item));
  }

  lemma PutBack(store: M.Store, o: Operand)
    ensures M.Put(store, o, M.Read(store, o)) == store
  {
  }

  lemma AroundRun(name: string, item: Item, x: Operand, y: Operand, store: M.Store)
    requires M.Near(item) && !Sim.Fixed(item) && x.Reg? && y.Reg?
    ensures M.Steps(Telling(), Around(name, item, x, y), 3, M.At(0, store, [])) == Told(item, M.Exchanged(store, x, y))
  {
    var sem, p, s := Telling(), Around(name, item, x, y), M.At(0, store, []);
    DataExec(sem, p[1], store, []);
    Tells(item, M.Exchanged(store, x, y));
    hide M.Exec, Told;
    var s1 := M.Step(sem, p, s);
    var s2 := M.Step(sem, p, s1);
    assert s1 == M.At(1, store, []) && s2 == M.At(2, M.Exchanged(store, x, y), []);
    assert M.Step(sem, p, s2) == Told(item, M.Exchanged(store, x, y));
    hide M.Step;
    StepBack(sem, p, 0, s2);
    StepBack(sem, p, 1, s1);
    StepBack(sem, p, 2, s);
  }

  lemma BareRun(name: string, item: Item, store: M.Store)
    requires M.Near(item) && !Sim.Fixed(item)
    ensures M.Steps(Telling(), [Label(Entry(name)), item], 2, M.At(0, store, [])) == Told(item, store)
  {
    var sem, q, s := Telling(), [Label(Entry(name)), item], M.At(0, store, []);
    Tells(item, store);
    hide M.Exec, Told;
    var s1 := M.Step(sem, q, s);
    assert s1 == M.At(1, store, []);
    assert M.Step(sem, q, s1) == Told(item, store);
    hide M.Step;
    StepBack(sem, q, 0, s1);
    StepBack(sem, q, 1, s);
  }

  /* ---- A global register taken for a local one ---- */

  /** brt to a label before a brt on the global register of the same number. */
  function Conflated(name: string, a: string, b: string): Code {
    [ Label(Entry(name)),
      E.To(Brt, Src(a), Reg(Local, 1)),
      Label(Src(a)),
      E.To(Brt, Src(b), Reg(Global, 1)),
      Instr(Other("exit"), None, None, None),
      Label(Src(b)) ]
  }

  function Merged(name: string, a: string, b: string): Code {
    [ Label(Entry(name)),
      E.To(Brt, Src(b), Reg(Local, 1)),
      Label(Src(a)),
      E.To(Brt, Src(b), Reg(Local, 1)),
      Instr(Other("exit"), None, None, None),
      Label(Src(b)) ]
  }

  lemma ConflatedMatches(name: string, a: string, b: string, counter: nat)
    ensures R.Apply(Conflated(name, a, b), counter, 7, 1)
      == R.Present(R.Rewritten(Merged(name, a, b), counter))
  {
    var q := Conflated(name, a, b);
    assert K.Meets(q, 7, 1, 2);
    K.MeetsApplies(q, counter, 7, 1, 2);
    var j, s, t, added := E.ThreadEffect(q, counter, 7, 1);
    hide R.Apply, R.MatchAt;
    assert j == 2;
    assert E.Threaded(q, 1, 2, s, t, []) == Merged(name, a, b);
  }

  ghost function ExitOnly(): M.Semantics {
    M.Semantics((item, a, b, c, w) => M.NearEffect(a, b, c, w, M.Stop),
                (item, s: M.Store, w) => M.FarEffect(s, w, M.Stop))
  }

  /** With the local register true and the global one false, the program exits; the
      rewritten one runs past its end. */
  lemma ConflatedDiffers(name: string, a: string, b: string)
    requires a != b
    ensures !M.SameMeaning(ExitOnly(), Conflated(name, a, b), Merged(name, a, b))
  {
    var sem, p, q := ExitOnly(), Conflated(name, a, b), Merged(name, a, b);
    var store := Only(Reg(Local, 1), One);
    FindIs(p, Entry(name), 0);
    FindIs(q, Entry(name), 0);
    FindIs(p, Src(a), 2);
    FindIs(q, Src(b), 5);
    var s := M.At(0, store, []);
    var end := M.Done([], M.Shared(store));
    ConflatedRun(sem, p, s, end, name, a, b);
    MergedRun(sem, q, s, name, a, b);
    if M.SameMeaning(sem, p, q) {
      assert M.Defines(p, Entry(name));
      assert M.SameFrom(sem, p, q, 0, 0);
      assert M.SameRuns(sem, p, q, s, s);
      assert M.Ends(sem, q, s, end);
      var n: nat :| M.Steps(sem, q, n, s) == end;
      OneEnd(sem, q, s, 4, M.Stuck([]), n, end);
      assert false;
    }
  }

  lemma OneEnd(sem: M.Semantics, q: Code, s: M.State, m: nat, e: M.State, n: nat, e': M.State)
    requires M.Steps(sem, q, m, s) == e && M.Steps(sem, q, n, s) == e' && !e.At? && !e'.At?
    ensures e == e'
  {
    if m <= n {
      M.StepsAdd(sem, q, m, n - m, s);
      M.EndStays(sem, q, n - m, e);
    } else {
      M.StepsAdd(sem, q, n, m - n, s);
      M.EndStays(sem, q, m - n, e');
    }
  }

  lemma StepBack(sem: M.Semantics, p: Code, n: nat, s: M.State)
    ensures M.Steps(sem, p, n + 1, s) == M.Steps(sem, p, n, M.Step(sem, p, s))
    ensures M.Steps(sem, p, 0, s) == s && M.Steps(sem, p, 0, M.Step(sem, p, s)) == M.Step(sem, p, s)
  {
  }

  lemma ConflatedRun(sem: M.Semantics, p: Code, s: M.State, end: M.State, name: string, a: string, b: string)
    requires sem == ExitOnly() && p == Conflated(name, a, b) && Find(p, Src(a)) == 2
    requires s == M.At(0, Only(Reg(Local, 1), One), []) && end == M.Done([], M.Shared(s.store))
    ensures M.Ends(sem, p, s, end)
  {
    var s1 := M.Step(sem, p, s);
    var s2 := M.Step(sem, p, s1);
    var s3 := M.Step(sem, p, s2);
    var s4 := M.Step(sem, p, s3);
    assert s1 == M.At(1, s.store, []) && s2 == M.At(2, s.store, []) && s3 == M.At(3, s.store, []);
    assert s4 == M.At(4, s.store, []);
    assert M.Step(sem, p, s4) == end;
    hide M.Step;
    StepBack(sem, p, 0, s4);
    StepBack(sem, p, 1, s3);
    StepBack(sem, p, 2, s2);
    StepBack(sem, p, 3, s1);
    StepBack(sem, p, 4, s);
  }

  lemma MergedRun(sem: M.Semantics, q: Code, s: M.State, name: string, a: string, b: string)
    requires q == Merged(name, a, b) && Find(q, Src(b)) == 5
    requires s == M.At(0, Only(Reg(Local, 1), One), [])
    ensures M.Steps(sem, q, 4, s) == M.Stuck([])
  {
    var s1 := M.Step(sem, q, s);
    var s2 := M.Step(sem, q, s1);
    var s3 := M.Step(sem, q, s2);
    assert s1 == M.At(1, s.store, []) && s2 == M.At(5, s.store, []) && s3 == M.At(6, s.store, []);
    assert M.Step(sem, q, s3) == M.Stuck([]);
    hide M.Step;
    StepBack(sem, q, 0, s3);
    StepBack(sem, q, 1, s2);
    StepBack(sem, q, 2, s1);
    StepBack(sem, q, 3, s);
  }

  /* ---- Branches that go round ---- */

  function Backward(x: string, y: string, to: string, r: Operand): Code {
    [ E.To(Brt, Src(to), r), Label(Src(y)), E.To(Brt, Src(x), r), Label(Src(x)), E.To(Brt, Src(y), r) ]
  }

  /** Two branches on one condition that go to each other, and one in front of them: the
      rule retargets that one to and fro, and however many passes there are, each one
      changes something. */
  lemma BackwardRepeats(x: string, y: string, r: Operand, counter: nat)
    requires x != y && r.Reg?
    ensures R.Apply(Backward(x, y, x, r), counter, 7, 0)
      == R.Present(R.Rewritten(Backward(x, y, y, r), counter))
    ensures R.Apply(Backward(x, y, y, r), counter, 7, 0)
      == R.Present(R.Rewritten(Backward(x, y, x, r), counter))
    ensures !W.Ends(R.Rewritten(Backward(x, y, x, r), counter))
  {
    RetargetsFirst(x, y, x, r, counter);
    RetargetsFirst(x, y, y, r, counter);
    hide R.Apply, W.Ends;
    BackwardRing(x, y, r);
    Y.RingNeverEnds(R.Rewritten(Backward(x, y, x, r), counter));
  }

  lemma RetargetsFirst(x: string, y: string, to: string, r: Operand, counter: nat)
    requires x != y && r.Reg? && (to == x || to == y)
    ensures R.Apply(Backward(x, y, to, r), counter, 7, 0)
      == R.Present(R.Rewritten(Backward(x, y, if to == x then y else x, r), counter))
  {
    var p := Backward(x, y, to, r);
    var at := if to == x then 3 else 1;
    hide R.Apply, R.Set;
    assert K.Meets(p, 7, 0, at);
    K.MeetsApplies(p, counter, 7, 0, at);
    hide K.Meets, K.Partners, K.Tests;
    var j, s, t, added := E.ThreadEffect(p, counter, 7, 0);
    hide E.LastHit;
    assert j == at;
    assert E.Threaded(p, 0, at, s, t, []) == Backward(x, y, if to == x then y else x, r);
  }

  lemma BackwardRing(x: string, y: string, r: Operand)
    requires x != y && r.Reg?
    ensures forall counter :: S.Tidy(Backward(x, y, x, r), counter)
    ensures Y.HasRing(Backward(x, y, x, r))
  {
    var q := Backward(x, y, x, r);
    var v := Y.ViewOf(q, 0);
    FindIs(q, Src(x), 3);
    FindIs(q, Src(y), 1);
    forall m: nat ensures Y.Same(q, v, Y.Along(q, v, 4, m)) {
      ToAndFro(q, v, m);
    }
    assert Y.Start(q, 0) == 4;
  }

  lemma {:induction false} ToAndFro(q: Code, v: Y.View, m: nat)
    requires Y.Same(q, v, 2) && Y.Same(q, v, 4) && Y.Next(q, v, 2) == 4 && Y.Next(q, v, 4) == 2
    ensures Y.Same(q, v, Y.Along(q, v, 4, m)) && Y.Same(q, v, Y.Along(q, v, 2, m))
    decreases m
  {
    hide Y.Next, Y.Same;
    if m > 0 { ToAndFro(q, v, m - 1); }
  }

  /** A chain that goes round through an opposite branch. */
  function Opposite(x: string, y: string, z: string, r: Operand): Code {
    [ E.To(Brt, Src(x), r), Label(Src(y)), E.To(Brf, Src(z), r), E.To(Brt, Src(x), r), Label(Src(x)) ]
  }

  /** Branches that go round are not enough: here each step of the chain leads to another
      branch on the register for ever, but one of them is of the opposite condition, and
      the label that is put behind it stops the second round. */
  lemma OppositeEnds(x: string, y: string, z: string, r: Operand, counter: nat)
    requires x != y && z != x && z != y && r.Reg?
    ensures var q := Opposite(x, y, z, r) + [E.To(Brt, Src(y), r)];
      && (forall m: nat :: Y.On(q, Y.ViewOf(q, 0), Y.Along(q, Y.ViewOf(q, 0), 5, m)))
      && W.Ends(R.Rewritten(q, counter))
  {
    var q0, last := Opposite(x, y, z, r), E.To(Brt, Src(y), r);
    var q := q0 + [last];
    var v := Y.ViewOf(q, 0);
    FindIs(q, Src(x), 4);
    FindIs(q, Src(y), 1);
    forall m: nat ensures Y.On(q, v, Y.Along(q, v, 5, m)) {
      RoundThree(q, v, m);
    }
    OppositeSettled(x, y, z, r, counter);
    hide W.Settled, W.Ends, Y.On;
    assert A.FirstTo(q, 0) == 0;
    assert !Y.Same(q, v, 2);
    RoundThree(q, v, 7);
    A.EndsExact(q0, counter, last);
  }

  lemma {:induction false} RoundThree(q: Code, v: Y.View, m: nat)
    requires Y.On(q, v, 5) && Y.On(q, v, 2) && Y.On(q, v, 3)
    requires Y.Next(q, v, 5) == 2 && Y.Next(q, v, 2) == 3 && Y.Next(q, v, 3) == 5
    ensures Y.On(q, v, Y.Along(q, v, 5, m))
    ensures m % 3 == 1 ==> Y.Along(q, v, 5, m) == 2
    decreases m
  {
    hide Y.On, Y.Next;
    assert Y.Along(q, v, 5, 0) == 5;
    if m == 1 {
      assert Y.Along(q, v, 2, 0) == 2;
    } else if m == 2 {
      assert Y.Along(q, v, 3, 0) == 3;
      assert Y.Along(q, v, 2, 1) == Y.Along(q, v, 3, 0);
    } else if m > 2 {
      RoundThree(q, v, m - 3);
      assert Y.Along(q, v, 5, m) == Y.Along(q, v, 2, m - 1) == Y.Along(q, v, 3, m - 2) == Y.Along(q, v, 5, m - 3);
    }
  }

  lemma OppositeSettled(x: string, y: string, z: string, r: Operand, counter: nat)
    requires x != y && z != x && z != y && r.Reg?
    ensures W.Settled(R.Rewritten(Opposite(x, y, z, r), counter))
    ensures S.Tidy(Opposite(x, y, z, r) + [E.To(Brt, Src(y), r)], counter)
  {
    var q := Opposite(x, y, z, r);
    hide R.Apply;
    forall k: nat, at: nat | k < R.SetCount && at < |q| ensures R.Apply(q, counter, k, at).Absent? {
      if R.Apply(q, counter, k, at).Present? {
        if k < 4 {
          X.SpanQuiet(q, counter, k, at);
        } else {
          var j, s, t, added := E.ThreadEffect(q, counter, k, at);
          K.AppliesMeets(q, counter, k, at, j, s, t, added);
        }
        assert false;
      }
    }
  }
}
