/** What the code emitted for an expression does, wherever it stands in a program. */
module ExpressionCode {
  import opened Assembly
  import opened Registers
  import opened Expressions
  import opened Instructions
  import M = Machine

  function FullCopy(to: nat, from: nat): Item { Instr(Other("copy"), R(to), R(from), None) }

  function Negation(r: nat, x: nat): Item { Instr(Other("not"), R(r), R(x), None) }

  function Arith(op: BinOp, r: nat, x: Operand, y: Operand): Item {
    Instr(Other(Mnemonic(op)), R(r), x, y)
  }

  lemma ArithSets(sem: M.Semantics, alu: Alu, op: BinOp, r: nat, x: Operand, y: Operand, store: M.Store, w: M.World)
    requires Computes(sem, alu) && Integer(x) && Integer(y)
    ensures SetsNum(sem, Arith(op, r, x, y), r, alu(op, Amount(store, x), Amount(store, y)), store, w)
  {
    ThreeFor(sem, alu, op, store, w);
    hide SetsNum, Computes, Mnemonic;
  }

  /** Each operation has its instruction. */
  lemma ThreeFor(sem: M.Semantics, alu: Alu, op: BinOp, store: M.Store, w: M.World)
    requires Computes(sem, alu)
    ensures Three(sem, Mnemonic(op), alu, op, store, w)
  {
    hide Three;
    assert ComputesAt(sem, alu, store, w);
  }

  lemma CopySets(sem: M.Semantics, alu: Alu, r: nat, x: nat, store: M.Store, w: M.World)
    requires Computes(sem, alu)
    ensures SetsNum(sem, Copy(r, x), r, Num(store, x), store, w)
    ensures Sets(sem, FullCopy(r, x), r, store[R(x)], store, w)
    ensures SetsNum(sem, Negation(r, x), r, if Num(store, x) == 0 then 1 else 0, store, w)
  {
    assert ComputesAt(sem, alu, store, w);
    hide SetsNum, Sets, Three;
  }

  lemma LoadSets(sem: M.Semantics, alu: Alu, r: nat, v: int, store: M.Store, w: M.World)
    requires Computes(sem, alu)
    ensures SetsNum(sem, Load(r, v), r, v, store, w)
  {
    assert ComputesAt(sem, alu, store, w);
    hide SetsNum, Sets, Three;
  }

  /* ---- What an expression means ---- */

  /** The value v is one the expression may have. Only an or is not fixed: when its
      first operand is true its value is that operand's or one. */
  ghost predicate Denotes(alu: Alu, e: Expr, store: M.Store, v: int)
    decreases e, 0
  {
    match e
    case Var(r) => v == Num(store, r)
    case Const(c) => v == c
    case Bin(op, l, r) =>
      exists a, b :: Denotes(alu, l, store, a) && Denotes(alu, r, store, b) && v == alu(op, a, b)
    case Logic(and, _, l, r) =>
      exists a :: Denotes(alu, l, store, a) && LogicValue(alu, and, a, r, store, v)
    case Un(op, e1) =>
      exists a :: Denotes(alu, e1, store, a) && v == UnValue(alu, op, a)
  }

  ghost predicate LogicValue(alu: Alu, and: bool, a: int, r: Expr, store: M.Store, v: int)
    decreases r, 1
  {
    if and && a == 0 then v == 0
    else if !and && a != 0 then v == a || v == 1
    else Denotes(alu, r, store, v)
  }

  function UnValue(alu: Alu, op: UnOp, a: int): int {
    match op
    case Not => if a == 0 then 1 else 0
    case Neg => alu(Sub, 0, a)
    case Plus => a
  }

  /** The short-circuit value. */
  function Eval(alu: Alu, e: Expr, store: M.Store): int {
    match e
    case Var(r) => Num(store, r)
    case Const(c) => c
    case Bin(op, l, r) => alu(op, Eval(alu, l, store), Eval(alu, r, store))
    case Logic(and, _, l, r) =>
      var a := Eval(alu, l, store);
      if and then (if a == 0 then 0 else Eval(alu, r, store))
      else if a != 0 then 1 else Eval(alu, r, store)
    case Un(op, e1) => UnValue(alu, op, Eval(alu, e1, store))
  }

  /** Every first operand of an or is zero or one. */
  predicate ExactOrs(alu: Alu, e: Expr, store: M.Store) {
    match e
    case Var(_) => true
    case Const(_) => true
    case Bin(_, l, r) => ExactOrs(alu, l, store) && ExactOrs(alu, r, store)
    case Logic(and, _, l, r) =>
      && ExactOrs(alu, l, store) && ExactOrs(alu, r, store)
      && (!and ==> Eval(alu, l, store) == 0 || Eval(alu, l, store) == 1)
    case Un(_, e1) => ExactOrs(alu, e1, store)
  }

  /** Then the value is fixed. */
  lemma {:induction false} ExactValue(alu: Alu, e: Expr, store: M.Store, v: int)
    requires ExactOrs(alu, e, store)
    ensures Denotes(alu, e, store, v) <==> v == Eval(alu, e, store)
  {
    match e
    case Var(_) =>
    case Const(_) =>
    case Bin(op, l, r) =>
      forall a ensures Denotes(alu, l, store, a) <==> a == Eval(alu, l, store) { ExactValue(alu, l, store, a); }
      forall b ensures Denotes(alu, r, store, b) <==> b == Eval(alu, r, store) { ExactValue(alu, r, store, b); }
    case Logic(and, _, l, r) =>
      forall a ensures Denotes(alu, l, store, a) <==> a == Eval(alu, l, store) { ExactValue(alu, l, store, a); }
      ExactValue(alu, r, store, v);
      var a := Eval(alu, l, store);
      assert Denotes(alu, l, store, a);
      assert Denotes(alu, e, store, v) <==> LogicValue(alu, and, a, r, store, v);
    case Un(op, e1) =>
      forall a ensures Denotes(alu, e1, store, a) <==> a == Eval(alu, e1, store) { ExactValue(alu, e1, store, a); }
  }

  /** Or occurs only under and, or, not and plus. */
  predicate TruthOnly(e: Expr) {
    match e
    case Var(_) => true
    case Const(_) => true
    case Bin(_, l, r) => NoOr(l) && NoOr(r)
    case Logic(_, _, l, r) => TruthOnly(l) && TruthOnly(r)
    case Un(op, e1) => if op == Neg then NoOr(e1) else TruthOnly(e1)
  }

  predicate NoOr(e: Expr) {
    match e
    case Var(_) => true
    case Const(_) => true
    case Bin(_, l, r) => NoOr(l) && NoOr(r)
    case Logic(and, _, l, r) => and && NoOr(l) && NoOr(r)
    case Un(_, e1) => NoOr(e1)
  }

  lemma {:induction false} NoOrExact(alu: Alu, e: Expr, store: M.Store)
    requires NoOr(e)
    ensures ExactOrs(alu, e, store)
  {
    match e
    case Var(_) =>
    case Const(_) =>
    case Bin(_, l, r) => NoOrExact(alu, l, store); NoOrExact(alu, r, store);
    case Logic(_, _, l, r) => NoOrExact(alu, l, store); NoOrExact(alu, r, store);
    case Un(_, e1) => NoOrExact(alu, e1, store);
  }

  /** Then at least its truth is fixed, and some value exists. */
  lemma {:induction false} TruthFixed(alu: Alu, e: Expr, store: M.Store, v: int)
    requires TruthOnly(e) && Denotes(alu, e, store, v)
    ensures v != 0 <==> Eval(alu, e, store) != 0
  {
    match e
    case Var(_) =>
    case Const(_) =>
    case Bin(op, l, r) =>
      NoOrExact(alu, l, store);
      NoOrExact(alu, r, store);
      ExactValue(alu, e, store, v);
    case Logic(and, _, l, r) =>
      var a :| Denotes(alu, l, store, a) && LogicValue(alu, and, a, r, store, v);
      TruthFixed(alu, l, store, a);
      if Denotes(alu, r, store, v) { TruthFixed(alu, r, store, v); }
    case Un(op, e1) =>
      if op == Neg {
        NoOrExact(alu, e1, store);
        ExactValue(alu, e, store, v);
      } else {
        var a :| Denotes(alu, e1, store, a) && v == UnValue(alu, op, a);
        TruthFixed(alu, e1, store, a);
      }
  }

  /** The meaning depends on the variables' registers only. */
  lemma {:induction false} DenotesSame(alu: Alu, e: Expr, p: Pool, s: M.Store, t: M.Store, v: int)
    requires VarsUsed(e, p) && Keeps(p, s, t) && Denotes(alu, e, t, v)
    ensures Denotes(alu, e, s, v)
  {
    match e
    case Var(_) =>
    case Const(_) =>
    case Bin(op, l, r) =>
      var a, b :| Denotes(alu, l, t, a) && Denotes(alu, r, t, b) && v == alu(op, a, b);
      DenotesSame(alu, l, p, s, t, a);
      DenotesSame(alu, r, p, s, t, b);
    case Logic(and, _, l, r) =>
      var a :| Denotes(alu, l, t, a) && LogicValue(alu, and, a, r, t, v);
      DenotesSame(alu, l, p, s, t, a);
      if Denotes(alu, r, t, v) { DenotesSame(alu, r, p, s, t, v); }
    case Un(op, e1) =>
      var a :| Denotes(alu, e1, t, a) && v == UnValue(alu, op, a);
      DenotesSame(alu, e1, p, s, t, a);
  }

  /* ---- Runs ---- */

  /** Every register in use, and every register that is not the procedure's own, is
      the same. */
  ghost predicate Keeps(p: Pool, s: M.Store, t: M.Store) {
    && (forall r: nat :: p.Used(r) ==> t[R(r)] == s[R(r)])
    && (forall o: Operand :: o.Reg? && o.kind != Local ==> t[o] == s[o])
  }

  /** The same, but for one register. */
  ghost predicate KeepsBut(p: Pool, x: nat, s: M.Store, t: M.Store) {
    && (forall r: nat :: p.Used(r) && r != x ==> t[R(r)] == s[R(r)])
    && (forall o: Operand :: o.Reg? && o.kind != Local ==> t[o] == s[o])
  }

  ghost predicate Runs(sem: M.Semantics, code: Code, at: nat, s: M.Store, to: nat, t: M.Store, w: M.World) {
    exists n: nat :: M.Steps(sem, code, n, M.At(at, s, w)) == M.At(to, t, w)
  }

  lemma RunsTrans(sem: M.Semantics, code: Code, a: nat, s: M.Store, b: nat, t: M.Store, c: nat, u: M.Store,
                  w: M.World)
    requires Runs(sem, code, a, s, b, t, w) && Runs(sem, code, b, t, c, u, w)
    ensures Runs(sem, code, a, s, c, u, w)
  {
    var m: nat :| M.Steps(sem, code, m, M.At(a, s, w)) == M.At(b, t, w);
    var n: nat :| M.Steps(sem, code, n, M.At(b, t, w)) == M.At(c, u, w);
    M.StepsAdd(sem, code, m, n, M.At(a, s, w));
  }

  lemma RunsNowhere(sem: M.Semantics, code: Code, a: nat, s: M.Store, w: M.World)
    ensures Runs(sem, code, a, s, a, s, w)
  {
    assert M.Steps(sem, code, 0, M.At(a, s, w)) == M.At(a, s, w);
  }

  lemma RunsStep(sem: M.Semantics, code: Code, a: nat, s: M.Store, b: nat, t: M.Store, w: M.World)
    requires M.Step(sem, code, M.At(a, s, w)) == M.At(b, t, w)
    ensures Runs(sem, code, a, s, b, t, w)
  {
    assert M.Steps(sem, code, 1, M.At(a, s, w)) == M.Steps(sem, code, 0, M.At(b, t, w));
  }

  /** The fragment stands in the program at a position. */
  ghost predicate Stands(code: Code, at: nat, fragment: Code) {
    at + |fragment| <= |code| && code[at..at + |fragment|] == fragment
  }

  lemma StandsSplit(code: Code, at: nat, a: Code, b: Code)
    requires Stands(code, at, a + b)
    ensures Stands(code, at, a) && Stands(code, at + |a|, b)
  {
    var f := code[at..at + |a| + |b|];
    assert f[..|a|] == a && f[|a|..] == b;
  }

  lemma StandsItem(code: Code, at: nat, item: Item)
    requires Stands(code, at, [item])
    ensures at < |code| && code[at] == item
  {
    assert code[at..at + 1][0] == item;
  }

  /** A label that stands in the program once is found there. */
  lemma LabelFound(code: Code, at: nat, name: Name)
    requires UniqueLabels(code) && Stands(code, at, [Label(name)])
    ensures Find(code, name) == at && at < |code|
  {
    StandsItem(code, at, Label(name));
    FindIs(code, name, at);
  }

  lemma RunsLabel(sem: M.Semantics, code: Code, at: nat, name: Name, s: M.Store, w: M.World)
    requires Stands(code, at, [Label(name)])
    ensures Runs(sem, code, at, s, at + 1, s, w)
  {
    StandsItem(code, at, Label(name));
    RunsStep(sem, code, at, s, at + 1, s, w);
  }

  /** An instruction that falls through. */
  lemma RunsItem(sem: M.Semantics, code: Code, at: nat, item: Item, s: M.Store, t: M.Store, w: M.World)
    requires Stands(code, at, [item]) && item.Instr?
    requires M.Exec(sem, item, s, w) == M.Act(t, w, M.Next)
    ensures Runs(sem, code, at, s, at + 1, t, w)
  {
    StandsItem(code, at, item);
    RunsStep(sem, code, at, s, at + 1, t, w);
  }

  /** A copy, or nothing if the registers are the same. */
  lemma RunsCopy(sem: M.Semantics, alu: Alu, code: Code, at: nat, to: nat, from: nat, s: M.Store, w: M.World)
    requires Computes(sem, alu) && Stands(code, at, CopyUnless(to, from))
    ensures Runs(sem, code, at, s, at + |CopyUnless(to, from)|, SetNum(s, to, Num(s, from)), w)
  {
    if to == from {
      assert SetNum(s, to, Num(s, from)) == s;
      RunsNowhere(sem, code, at, s, w);
    } else {
      CopySets(sem, alu, to, from, s, w);
      RunsItem(sem, code, at, Copy(to, from), s, SetNum(s, to, Num(s, from)), w);
    }
  }

  lemma RunsLoad(sem: M.Semantics, alu: Alu, code: Code, at: nat, r: nat, v: int, s: M.Store, w: M.World)
    requires Computes(sem, alu) && Stands(code, at, [Load(r, v)])
    ensures Runs(sem, code, at, s, at + 1, SetNum(s, r, v), w)
  {
    LoadSets(sem, alu, r, v, s, w);
    hide M.Exec, Computes;
    RunsItem(sem, code, at, Load(r, v), s, SetNum(s, r, v), w);
  }

  /** The short-circuit branch is taken when the first operand decides. */
  lemma RunsSkip(sem: M.Semantics, code: Code, at: nat, and: bool, name: Name, r: nat, target: nat,
                 s: M.Store, w: M.World)
    requires Stands(code, at, [Instr(Skip(and), Id(name), R(r), None)]) && Find(code, name) == target
    ensures Runs(sem, code, at, s, if (Num(s, r) == 0) == and then target else at + 1, s, w)
  {
    StandsItem(code, at, Instr(Skip(and), Id(name), R(r), None));
    RunsStep(sem, code, at, s, if (Num(s, r) == 0) == and then target else at + 1, s, w);
  }

  lemma RunsJump(sem: M.Semantics, code: Code, at: nat, name: Name, target: nat, s: M.Store, w: M.World)
    requires Stands(code, at, [Instr(Br, Id(name), None, None)]) && Find(code, name) == target
    ensures Runs(sem, code, at, s, target, s, w)
  {
    StandsItem(code, at, Instr(Br, Id(name), None, None));
    RunsStep(sem, code, at, s, target, s, w);
  }

  /* ---- The result of a fragment ---- */

  /** Running the code of a node leaves a value of the expression in its register and
      every register in use, but that one, as it was; variables change nothing. */
  ghost predicate Done(sem: M.Semantics, alu: Alu, code: Code, at: nat, e: Expr, n: Node, p: Pool,
                       s: M.Store, t: M.Store, w: M.World)
    requires Placed(n)
  {
    && Runs(sem, code, at, s, at + |Emit(n)|, t, w)
    && Denotes(alu, e, s, Num(t, n.slot.reg))
    && KeepsBut(p, n.slot.reg, s, t)
    && (e.Var? ==> t == s)
  }

  /** Every node of a finished walk has its register, constants in instructions apart. */
  lemma {:induction false} WalkPlaced(e: Expr, later: bool, p: Pool, reg: nat)
    ensures var n := Walk(e, later, p).0;
      && Placed(Settled(n, At(reg)))
      && (n.slot.At? ==> Placed(n))
      && (e.Const? && later <==> InlineConst(n))
      && (n.slot.Later? ==> later)
  {
    hide Get, Return;
    match e
    case Var(_) =>
    case Const(_) =>
    case Bin(op, l, r) =>
      if Swaps(op, l, r) {
        WalkPlaced(r, false, p, reg);
        WalkPlaced(l, true, Walk(r, false, p).1, reg);
      } else {
        WalkPlaced(l, LeftInline(op, l, r), p, reg);
        WalkPlaced(r, RightInline(op, l, r), Walk(l, LeftInline(op, l, r), p).1, reg);
      }
    case Logic(_, _, l, r) =>
      var p1 := Walk(l, !l.Var?, p).1;
      var q := Get(Walk(r, !r.Var?, p1).1).0;
      WalkPlaced(l, !l.Var?, p, q);
      WalkPlaced(r, !r.Var?, p1, q);
    case Un(_, e1) => WalkPlaced(e1, false, p, reg);
  }

  /** An operand keeps all registers in use: its own is a new one. */
  lemma OperandKeeps(sem: M.Semantics, alu: Alu, code: Code, at: nat, e: Expr, n: Node, p: Pool,
                     s: M.Store, t: M.Store, w: M.World)
    requires Placed(n) && Done(sem, alu, code, at, e, n, p, s, t, w)
    requires e.Var? || !p.Used(n.slot.reg)
    ensures Keeps(p, s, t)
  {
  }

  lemma KeepsTrans(p: Pool, q: Pool, s: M.Store, t: M.Store, u: M.Store)
    requires Keeps(p, s, t) && Keeps(q, t, u) && Extends(p, q)
    ensures Keeps(p, s, u)
  {
  }

  lemma KeepsSet(p: Pool, s: M.Store, t: M.Store, r: nat, v: int)
    requires Keeps(p, s, t)
    ensures KeepsBut(p, r, s, SetNum(t, r, v)) && Num(SetNum(t, r, v), r) == v
  {
  }

  /* ---- Short-circuit code ---- */

  /** The operands of an and or an or after their code has run one after the other. */
  ghost predicate BothRan(sem: M.Semantics, alu: Alu, code: Code, at: nat, e: Expr, x: Node, y: Node,
                          p: Pool, s: M.Store, s1: M.Store, s2: M.Store, w: M.World)
    requires e.Logic? && Placed(x) && Placed(y)
  {
    var middle := at + |Emit(x)| + 1;
    && Runs(sem, code, at, s, at + |Emit(x)|, s1, w)
    && Runs(sem, code, middle, s1, middle + |Emit(y)|, s2, w)
    && Keeps(p, s, s1) && Keeps(p, s, s2)
    && Denotes(alu, e.l, s, Num(s1, x.slot.reg)) && Denotes(alu, e.r, s, Num(s2, y.slot.reg))
  }

  /** The final store, by whether the first operand decided. */
  function LogicResult(and: bool, n: Node, s1: M.Store, s2: M.Store): M.Store
    requires n.LogicNode? && Placed(n) && Placed(n.l) && Placed(n.r)
  {
    var reg := n.slot.reg;
    if (Num(s1, n.l.slot.reg) == 0) == and then
      if n.l.slot == n.slot then s1 else SetNum(s1, reg, if and then 0 else 1)
    else SetNum(s2, reg, Num(s2, n.r.slot.reg))
  }

  lemma LogicMeans(sem: M.Semantics, alu: Alu, code: Code, at: nat, e: Expr, n: Node,
                   p: Pool, s: M.Store, s1: M.Store, s2: M.Store, w: M.World)
    requires e.Logic? && n.LogicNode? && n.and == e.and && Placed(n) && Placed(n.l) && Placed(n.r)
    requires BothRan(sem, alu, code, at, e, n.l, n.r, p, s, s1, s2, w)
    ensures var t := LogicResult(e.and, n, s1, s2);
      Denotes(alu, e, s, Num(t, n.slot.reg)) && KeepsBut(p, n.slot.reg, s, t)
  {
    var a := Num(s1, n.l.slot.reg);
    var t := LogicResult(e.and, n, s1, s2);
    assert LogicValue(alu, e.and, a, e.r, s, Num(t, n.slot.reg));
  }

  /** Short form: the operands share the register, the result is there already. */
  lemma ShortRuns(sem: M.Semantics, alu: Alu, code: Code, and: bool, end: Name, reg: nat, rr: nat,
                  at: nat, k1: nat, k3: nat, k4: nat,
                  s: M.Store, s1: M.Store, s2: M.Store, t: M.Store, w: M.World)
    requires Computes(sem, alu) && UniqueLabels(code) && k4 == k3 + |CopyUnless(reg, rr)|
    requires Runs(sem, code, at, s, k1, s1, w)
    requires Stands(code, k1, [Instr(Skip(and), Id(end), R(reg), None)])
    requires Runs(sem, code, k1 + 1, s1, k3, s2, w)
    requires Stands(code, k3, CopyUnless(reg, rr)) && Stands(code, k4, [Label(end)])
    requires t == if (Num(s1, reg) == 0) == and then s1 else SetNum(s2, reg, Num(s2, rr))
    ensures Runs(sem, code, at, s, k4 + 1, t, w)
  {
    LabelFound(code, k4, end);
    hide M.Step, M.Steps, M.Exec, Runs, Stands, UniqueLabels, Find, Computes, SetNum, CopyUnless;
    RunsSkip(sem, code, k1, and, end, reg, k4, s1, w);
    if (Num(s1, reg) == 0) == and {
      RunsTrans(sem, code, at, s, k1, s1, k4, s1, w);
    } else {
      RunsTrans(sem, code, at, s, k1, s1, k1 + 1, s1, w);
      RunsTrans(sem, code, at, s, k1 + 1, s1, k3, s2, w);
      RunsCopy(sem, alu, code, k3, reg, rr, s2, w);
      RunsTrans(sem, code, at, s, k3, s2, k4, t, w);
    }
    RunsLabel(sem, code, k4, end, t, w);
    RunsTrans(sem, code, at, s, k4, t, k4 + 1, t, w);
  }

  /** Long form: the result goes to another register than the first operand. */
  lemma LongRuns(sem: M.Semantics, alu: Alu, code: Code, and: bool, exit: Name, end: Name,
                 reg: nat, rl: nat, rr: nat, v: int, at: nat, k1: nat, k3: nat, k4: nat,
                 s: M.Store, s1: M.Store, s2: M.Store, t: M.Store, w: M.World)
    requires Computes(sem, alu) && UniqueLabels(code) && k4 == k3 + |CopyUnless(reg, rr)|
    requires Runs(sem, code, at, s, k1, s1, w)
    requires Stands(code, k1, [Instr(Skip(and), Id(exit), R(rl), None)])
    requires Runs(sem, code, k1 + 1, s1, k3, s2, w)
    requires Stands(code, k3, CopyUnless(reg, rr)) && Stands(code, k4, [Instr(Br, Id(end), None, None)])
    requires Stands(code, k4 + 1, [Label(exit)]) && Stands(code, k4 + 2, [Load(reg, v)])
    requires Stands(code, k4 + 3, [Label(end)])
    requires t == if (Num(s1, rl) == 0) == and then SetNum(s1, reg, v) else SetNum(s2, reg, Num(s2, rr))
    ensures Runs(sem, code, at, s, k4 + 4, t, w)
  {
    hide M.Step, M.Steps, M.Exec, Runs, Stands, UniqueLabels, Find, Computes, SetNum, CopyUnless;
    LabelFound(code, k4 + 1, exit);
    LabelFound(code, k4 + 3, end);
    RunsSkip(sem, code, k1, and, exit, rl, k4 + 1, s1, w);
    if (Num(s1, rl) == 0) == and {
      RunsTrans(sem, code, at, s, k1, s1, k4 + 1, s1, w);
      RunsLabel(sem, code, k4 + 1, exit, s1, w);
      RunsTrans(sem, code, at, s, k4 + 1, s1, k4 + 2, s1, w);
      RunsLoad(sem, alu, code, k4 + 2, reg, v, s1, w);
      RunsTrans(sem, code, at, s, k4 + 2, s1, k4 + 3, t, w);
    } else {
      RunsTrans(sem, code, at, s, k1, s1, k1 + 1, s1, w);
      RunsTrans(sem, code, at, s, k1 + 1, s1, k3, s2, w);
      RunsCopy(sem, alu, code, k3, reg, rr, s2, w);
      RunsTrans(sem, code, at, s, k3, s2, k4, t, w);
      RunsJump(sem, code, k4, end, k4 + 3, t, w);
      RunsTrans(sem, code, at, s, k4, t, k4 + 3, t, w);
    }
    RunsLabel(sem, code, k4 + 3, end, t, w);
    RunsTrans(sem, code, at, s, k4 + 3, t, k4 + 4, t, w);
  }

  lemma FrontLayout(code: Code, at: nat, a: Code, skip: Code, b: Code, c: Code)
    requires Stands(code, at, a + skip + b + c)
    ensures Stands(code, at, a) && Stands(code, at + |a|, skip)
    ensures Stands(code, at + |a| + |skip|, b) && Stands(code, at + |a| + |skip| + |b|, c)
  {
    hide Stands;
    StandsSplit(code, at, a + skip + b, c);
    StandsSplit(code, at, a + skip, b);
    StandsSplit(code, at, a, skip);
  }

  /** Where the parts of the short form stand. */
  lemma ShortLayout(code: Code, at: nat, and: bool, id: nat, reg: nat, rr: nat, a: Code, b: Code)
    requires Stands(code, at, ShortCode(and, id, reg, rr, a, b))
    ensures var k1 := at + |a|;
      var k3 := k1 + 1 + |b|;
      var k4 := k3 + |CopyUnless(reg, rr)|;
      && at + |ShortCode(and, id, reg, rr, a, b)| == k4 + 1
      && Stands(code, at, a) && Stands(code, k1 + 1, b) && Stands(code, k3, CopyUnless(reg, rr))
      && Stands(code, k1, [Instr(Skip(and), Id(EndLabel(and, id)), R(reg), None)])
      && Stands(code, k4, [Label(EndLabel(and, id))])
  {
    hide Stands, EndLabel, CopyUnless;
    var skip, c := [Instr(Skip(and), Id(EndLabel(and, id)), R(reg), None)], CopyUnless(reg, rr);
    StandsSplit(code, at, a + skip + b + c, [Label(EndLabel(and, id))]);
    FrontLayout(code, at, a, skip, b, c);
  }

  /** Where the parts of the long form stand. */
  lemma LongLayout(code: Code, at: nat, and: bool, id: nat, reg: nat, rl: nat, rr: nat, a: Code, b: Code)
    requires Stands(code, at, LongCode(and, id, reg, rl, rr, a, b))
    ensures var k1 := at + |a|;
      var k3 := k1 + 1 + |b|;
      var k4 := k3 + |CopyUnless(reg, rr)|;
      && at + |LongCode(and, id, reg, rl, rr, a, b)| == k4 + 4
      && Stands(code, at, a) && Stands(code, k1 + 1, b) && Stands(code, k3, CopyUnless(reg, rr))
      && Stands(code, k1, [Instr(Skip(and), Id(ExitLabel(and, id)), R(rl), None)])
      && Stands(code, k4, [Instr(Br, Id(EndLabel(and, id)), None, None)])
      && Stands(code, k4 + 1, [Label(ExitLabel(and, id))])
      && Stands(code, k4 + 2, [Load(reg, if and then 0 else 1)])
      && Stands(code, k4 + 3, [Label(EndLabel(and, id))])
  {
    hide Stands, EndLabel, ExitLabel, CopyUnless;
    var end, exit := [Label(EndLabel(and, id))], [Label(ExitLabel(and, id))];
    var skip, c := [Instr(Skip(and), Id(ExitLabel(and, id)), R(rl), None)], CopyUnless(reg, rr);
    var jump, load := [Instr(Br, Id(EndLabel(and, id)), None, None)], [Load(reg, if and then 0 else 1)];
    var front := a + skip + b + c;
    StandsSplit(code, at, front + jump + exit + load, end);
    StandsSplit(code, at, front + jump + exit, load);
    StandsSplit(code, at, front + jump, exit);
    StandsSplit(code, at, front, jump);
    FrontLayout(code, at, a, skip, b, c);
  }

  lemma ShortCodeRuns(sem: M.Semantics, alu: Alu, code: Code, at: nat, and: bool, id: nat,
                      reg: nat, rr: nat, a: Code, b: Code,
                      s: M.Store, s1: M.Store, s2: M.Store, t: M.Store, w: M.World)
    requires Computes(sem, alu) && UniqueLabels(code)
    requires Stands(code, at, ShortCode(and, id, reg, rr, a, b))
    requires Runs(sem, code, at, s, at + |a|, s1, w)
    requires Runs(sem, code, at + |a| + 1, s1, at + |a| + 1 + |b|, s2, w)
    requires t == if (Num(s1, reg) == 0) == and then s1 else SetNum(s2, reg, Num(s2, rr))
    ensures Runs(sem, code, at, s, at + |ShortCode(and, id, reg, rr, a, b)|, t, w)
  {
    hide Runs, Stands, Computes, UniqueLabels, SetNum, CopyUnless, ShortCode, EndLabel;
    var k1 := at + |a|;
    var k3 := k1 + 1 + |b|;
    ShortLayout(code, at, and, id, reg, rr, a, b);
    ShortRuns(sem, alu, code, and, EndLabel(and, id), reg, rr, at, k1, k3, k3 + |CopyUnless(reg, rr)|,
              s, s1, s2, t, w);
  }

  lemma LongCodeRuns(sem: M.Semantics, alu: Alu, code: Code, at: nat, and: bool, id: nat,
                     reg: nat, rl: nat, rr: nat, a: Code, b: Code,
                     s: M.Store, s1: M.Store, s2: M.Store, t: M.Store, w: M.World)
    requires Computes(sem, alu) && UniqueLabels(code)
    requires Stands(code, at, LongCode(and, id, reg, rl, rr, a, b))
    requires Runs(sem, code, at, s, at + |a|, s1, w)
    requires Runs(sem, code, at + |a| + 1, s1, at + |a| + 1 + |b|, s2, w)
    requires t == if (Num(s1, rl) == 0) == and then SetNum(s1, reg, if and then 0 else 1)
      else SetNum(s2, reg, Num(s2, rr))
    ensures Runs(sem, code, at, s, at + |LongCode(and, id, reg, rl, rr, a, b)|, t, w)
  {
    hide Runs, Stands, Computes, UniqueLabels, SetNum, CopyUnless, LongCode, EndLabel, ExitLabel;
    var k1 := at + |a|;
    var k3 := k1 + 1 + |b|;
    LongLayout(code, at, and, id, reg, rl, rr, a, b);
    LongRuns(sem, alu, code, and, ExitLabel(and, id), EndLabel(and, id), reg, rl, rr,
             if and then 0 else 1, at, k1, k3, k3 + |CopyUnless(reg, rr)|, s, s1, s2, t, w);
  }

  lemma EmitLogic(n: Node)
    requires n.LogicNode? && Placed(n)
    ensures Placed(n.l) && Placed(n.r) && n.slot.At? && n.l.slot.At? && n.r.slot.At?
    ensures Emit(n) == if n.l.slot == n.slot
      then ShortCode(n.and, n.id, n.slot.reg, n.r.slot.reg, Emit(n.l), Emit(n.r))
      else LongCode(n.and, n.id, n.slot.reg, n.l.slot.reg, n.r.slot.reg, Emit(n.l), Emit(n.r))
  {
    hide ShortCode, LongCode;
  }

  lemma LogicRuns(sem: M.Semantics, alu: Alu, code: Code, at: nat, n: Node,
                  s: M.Store, s1: M.Store, s2: M.Store, w: M.World)
    requires Computes(sem, alu) && UniqueLabels(code)
    requires n.LogicNode? && Placed(n) && Placed(n.l) && Placed(n.r)
    requires Stands(code, at, Emit(n))
    requires Runs(sem, code, at, s, at + |Emit(n.l)|, s1, w)
    requires var middle := at + |Emit(n.l)| + 1;
      Runs(sem, code, middle, s1, middle + |Emit(n.r)|, s2, w)
    ensures Runs(sem, code, at, s, at + |Emit(n)|, LogicResult(n.and, n, s1, s2), w)
  {
    hide Emit, Placed, Runs, Stands, Computes, UniqueLabels, SetNum, ShortCode, LongCode;
    EmitLogic(n);
    var reg, rl, rr := n.slot.reg, n.l.slot.reg, n.r.slot.reg;
    var a, b := Emit(n.l), Emit(n.r);
    var t := LogicResult(n.and, n, s1, s2);
    if n.l.slot == n.slot {
      ShortCodeRuns(sem, alu, code, at, n.and, n.id, reg, rr, a, b, s, s1, s2, t, w);
    } else {
      LongCodeRuns(sem, alu, code, at, n.and, n.id, reg, rl, rr, a, b, s, s1, s2, t, w);
    }
  }
}
