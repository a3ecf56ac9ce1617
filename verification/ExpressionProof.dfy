/** The code for an expression computes it and leaves every register in use alone. */
module ExpressionProof {
  import opened Assembly
  import opened Registers
  import opened Expressions
  import opened Instructions
  import opened ExpressionCode
  import M = Machine

  /** The node with its final register: its own, or the one its parent chose. */
  function Final(e: Expr, later: bool, p: Pool, reg: nat): Node {
    Settled(Walk(e, later, p).0, At(reg))
  }

  /** The code of an operand: none if it is written into the instruction. */
  function OperandCode(n: Node): Code
    requires InlineConst(n) || Placed(n)
  {
    if InlineConst(n) then [] else Emit(n)
  }

  /** The operand's code has run: its value is there, all registers in use are as before. */
  ghost predicate OperandRan(sem: M.Semantics, alu: Alu, code: Code, at: nat, e: Expr, n: Node, p: Pool,
                             s: M.Store, t: M.Store, w: M.World)
    requires InlineConst(n) || Placed(n)
  {
    && Runs(sem, code, at, s, at + |OperandCode(n)|, t, w)
    && Denotes(alu, e, s, Amount(t, Source(n)))
    && Keeps(p, s, t)
  }

  /** The register of an operand stays in use, so the other operand's code keeps it. */
  lemma OperandHeld(e: Expr, later: bool, n: Node, p: Pool, q: Pool, s: M.Store, t: M.Store)
    requires InlineConst(n) || n.slot.At?
    requires VarsUsed(e, p) && Extends(p, q) && OwnSlot(e, later, n, p, q) && Keeps(q, s, t)
    ensures Amount(t, Source(n)) == Amount(s, Source(n))
  {
    if n.slot.At? { assert q.Used(n.slot.reg); }
  }

  lemma BinDone(sem: M.Semantics, alu: Alu, code: Code, at: nat, e: Expr, n: Node,
                a: Expr, la: bool, b: Expr, p: Pool, p1: Pool,
                s: M.Store, s1: M.Store, s2: M.Store, w: M.World)
    requires Computes(sem, alu) && OrderFree(alu)
    requires e.Bin? && n.BinNode? && n.op == e.op && Placed(n)
    requires InlineConst(n.l) || Placed(n.l)
    requires InlineConst(n.r) || Placed(n.r)
    requires (a == e.l && b == e.r) || (a == e.r && b == e.l && Swappable(e.op))
    requires VarsUsed(a, p) && VarsUsed(b, p) && Extends(p, p1) && OwnSlot(a, la, n.l, p, p1)
    requires Stands(code, at + |OperandCode(n.l)| + |OperandCode(n.r)|,
                    [Arith(n.op, n.slot.reg, Source(n.l), Source(n.r))])
    requires OperandRan(sem, alu, code, at, a, n.l, p, s, s1, w)
    requires OperandRan(sem, alu, code, at + |OperandCode(n.l)|, b, n.r, p1, s1, s2, w)
    ensures var v := alu(e.op, Amount(s1, Source(n.l)), Amount(s2, Source(n.r)));
      var end := at + |OperandCode(n.l)| + |OperandCode(n.r)| + 1;
      && Runs(sem, code, at, s, end, SetNum(s2, n.slot.reg, v), w)
      && Denotes(alu, e, s, v)
      && KeepsBut(p, n.slot.reg, s, SetNum(s2, n.slot.reg, v))
  {
    hide Runs, Stands, Emit, Computes, Keeps, KeepsBut, SetNum, OwnSlot, Extends, VarsUsed;
    var x, y := Amount(s1, Source(n.l)), Amount(s2, Source(n.r));
    var k1 := at + |OperandCode(n.l)|;
    var k2 := k1 + |OperandCode(n.r)|;
    OperandHeld(a, la, n.l, p, p1, s1, s2);
    DenotesSame(alu, b, p, s, s1, y);
    KeepsTrans(p, p1, s, s1, s2);
    KeepsSet(p, s, s2, n.slot.reg, alu(e.op, x, y));
    ArithRuns(sem, alu, code, k2, n, s2, w);
    RunsTrans(sem, code, at, s, k1, s1, k2, s2, w);
    RunsTrans(sem, code, at, s, k2, s2, k2 + 1, SetNum(s2, n.slot.reg, alu(e.op, x, y)), w);
    BinMeans(alu, e, a, b, s, x, y);
  }

  lemma BinMeans(alu: Alu, e: Expr, a: Expr, b: Expr, s: M.Store, x: int, y: int)
    requires e.Bin? && OrderFree(alu)
    requires (a == e.l && b == e.r) || (a == e.r && b == e.l && Swappable(e.op))
    requires Denotes(alu, a, s, x) && Denotes(alu, b, s, y)
    ensures Denotes(alu, e, s, alu(e.op, x, y))
  {
  }

  lemma ArithRuns(sem: M.Semantics, alu: Alu, code: Code, at: nat, n: Node, s: M.Store, w: M.World)
    requires Computes(sem, alu) && n.BinNode? && n.slot.At?
    requires InlineConst(n.l) || Placed(n.l)
    requires InlineConst(n.r) || Placed(n.r)
    requires Stands(code, at, [Arith(n.op, n.slot.reg, Source(n.l), Source(n.r))])
    ensures Runs(sem, code, at, s, at + 1, SetNum(s, n.slot.reg,
      alu(n.op, Amount(s, Source(n.l)), Amount(s, Source(n.r)))), w)
  {
    hide Runs, Stands, M.Exec;
    var item := Arith(n.op, n.slot.reg, Source(n.l), Source(n.r));
    var v := alu(n.op, Amount(s, Source(n.l)), Amount(s, Source(n.r)));
    ArithSets(sem, alu, n.op, n.slot.reg, Source(n.l), Source(n.r), s, w);
    hide Computes;
    RunsItem(sem, code, at, item, s, SetNum(s, n.slot.reg, v), w);
  }

  lemma EmitBin(n: Node)
    requires n.BinNode? && Placed(n)
    ensures InlineConst(n.l) || Placed(n.l)
    ensures InlineConst(n.r) || Placed(n.r)
    ensures Emit(n) == OperandCode(n.l) + OperandCode(n.r)
      + [Arith(n.op, n.slot.reg, Source(n.l), Source(n.r))]
  {
  }

  lemma BinLayout(code: Code, at: nat, n: Node)
    requires n.BinNode? && Placed(n) && Stands(code, at, Emit(n))
    ensures InlineConst(n.l) || Placed(n.l)
    ensures InlineConst(n.r) || Placed(n.r)
    ensures var k1 := at + |OperandCode(n.l)|;
      var k2 := k1 + |OperandCode(n.r)|;
      && Stands(code, at, OperandCode(n.l)) && Stands(code, k1, OperandCode(n.r))
      && Stands(code, k2, [Arith(n.op, n.slot.reg, Source(n.l), Source(n.r))])
      && at + |Emit(n)| == k2 + 1
  {
    hide Stands, Emit, Placed;
    EmitBin(n);
    var a, b := OperandCode(n.l), OperandCode(n.r);
    StandsSplit(code, at, a + b, [Arith(n.op, n.slot.reg, Source(n.l), Source(n.r))]);
    StandsSplit(code, at, a, b);
  }

  /** From the run of a node to the run of an operand. */
  lemma NodeToOperand(sem: M.Semantics, alu: Alu, code: Code, at: nat, e: Expr, later: bool,
                      n: Node, p: Pool, q: Pool, s: M.Store, t: M.Store, w: M.World)
    requires Placed(n) && OwnSlot(e, later, n, p, q)
    requires Done(sem, alu, code, at, e, n, p, s, t, w)
    ensures OperandRan(sem, alu, code, at, e, n, p, s, t, w)
  {
    hide Emit, Runs, Denotes, Placed;
    OperandKeeps(sem, alu, code, at, e, n, p, s, t, w);
  }

  lemma InlineRan(sem: M.Semantics, alu: Alu, code: Code, at: nat, e: Expr, n: Node, p: Pool,
                  s: M.Store, w: M.World)
    requires e.Const? && InlineConst(n) && n.value == e.value
    ensures OperandRan(sem, alu, code, at, e, n, p, s, s, w)
  {
    RunsNowhere(sem, code, at, s, w);
  }

  /* ---- The theorem, by the structure of the expression ---- */

  /** What the walk and the program must provide. */
  ghost predicate Setting(sem: M.Semantics, alu: Alu, code: Code, at: nat, e: Expr, later: bool,
                          p: Pool, reg: nat)
  {
    && Computes(sem, alu) && OrderFree(alu) && UniqueLabels(code)
    && p.Valid() && VarsUsed(e, p)
    && Placed(Final(e, later, p, reg)) && Stands(code, at, Emit(Final(e, later, p, reg)))
  }

  /** An operand of a binary operation. */
  lemma {:induction false} OperandDone(sem: M.Semantics, alu: Alu, code: Code, at: nat, e: Expr, later: bool,
                                       p: Pool, s: M.Store, w: M.World) returns (t: M.Store)
    requires Computes(sem, alu) && OrderFree(alu) && UniqueLabels(code) && p.Valid() && VarsUsed(e, p)
    requires later ==> e.Const?
    requires var n := Walk(e, later, p).0;
      (InlineConst(n) || Placed(n)) && Stands(code, at, OperandCode(n))
    ensures OperandRan(sem, alu, code, at, e, Walk(e, later, p).0, p, s, t, w)
    decreases e, 3
  {
    var (n, q) := Walk(e, later, p);
    if later {
      t := s;
      InlineRan(sem, alu, code, at, e, n, p, s, w);
    } else {
      WalkPool(e, later, p);
      WalkPlaced(e, later, p, 0);
      assert n.slot.At? && Final(e, later, p, n.slot.reg) == n;
      t := Correct(sem, alu, code, at, e, later, p, n.slot.reg, s, w);
      NodeToOperand(sem, alu, code, at, e, later, n, p, q, s, t, w);
    }
  }

  /** The code for any expression, wherever it stands in a program with unique labels:
      it runs to its end, leaves a value of the expression in the node's register, and
      changes no other register that was in use before the walk. */
  lemma {:induction false} Correct(sem: M.Semantics, alu: Alu, code: Code, at: nat, e: Expr, later: bool,
                                   p: Pool, reg: nat, s: M.Store, w: M.World) returns (t: M.Store)
    requires Setting(sem, alu, code, at, e, later, p, reg)
    ensures Done(sem, alu, code, at, e, Final(e, later, p, reg), p, s, t, w)
    decreases e, 2
  {
    match e
    case Var(_) =>
      t := s;
      RunsNowhere(sem, code, at, s, w);
    case Const(_) => t := ConstDone(sem, alu, code, at, e, later, p, reg, s, w);
    case Bin(op, l, r) =>
      if Swaps(op, l, r) {
        t := BinCase(sem, alu, code, at, e, later, p, reg, r, false, l, true, s, w);
      } else {
        t := BinCase(sem, alu, code, at, e, later, p, reg, l, LeftInline(op, l, r), r, RightInline(op, l, r),
                     s, w);
      }
    case Logic(and, id, l, r) => t := LogicCase(sem, alu, code, at, e, later, p, reg, s, w);
    case Un(op, e1) => t := UnCase(sem, alu, code, at, e, later, p, reg, s, w);
  }

  lemma ConstDone(sem: M.Semantics, alu: Alu, code: Code, at: nat, e: Expr, later: bool,
                  p: Pool, reg: nat, s: M.Store, w: M.World) returns (t: M.Store)
    requires e.Const? && Setting(sem, alu, code, at, e, later, p, reg)
    ensures Done(sem, alu, code, at, e, Final(e, later, p, reg), p, s, t, w)
  {
    var n := Final(e, later, p, reg);
    t := SetNum(s, n.slot.reg, e.value);
    assert Emit(n) == [Load(n.slot.reg, e.value)];
    hide M.Exec, Runs, Stands, Computes;
    RunsLoad(sem, alu, code, at, n.slot.reg, e.value, s, w);
  }

  lemma {:induction false} BinCase(sem: M.Semantics, alu: Alu, code: Code, at: nat, e: Expr, later: bool,
                                   p: Pool, reg: nat, a: Expr, la: bool, b: Expr, lb: bool,
                                   s: M.Store, w: M.World) returns (t: M.Store)
    requires e.Bin? && Setting(sem, alu, code, at, e, later, p, reg)
    requires Order(e, a, la, b, lb)
    ensures Done(sem, alu, code, at, e, Final(e, later, p, reg), p, s, t, w)
    decreases e, 1
  {
    hide *;
    SettingParts(sem, alu, code, at, e, later, p, reg);
    var n := Final(e, later, p, reg);
    var (x, p1) := Walk(a, la, p);
    BinReady(sem, alu, code, at, e, later, p, reg, a, la, b, lb);
    var s1 := OperandDone(sem, alu, code, at, a, la, p, s, w);
    var s2 := OperandDone(sem, alu, code, at + |OperandCode(x)|, b, lb, p1, s1, w);
    BinDone(sem, alu, code, at, e, n, a, la, b, p, p1, s, s1, s2, w);
    BinAllDone(sem, alu, code, at, e, n, p, s, s1, s2, w);
    t := SetNum(s2, n.slot.reg, alu(e.op, Amount(s1, Source(n.l)), Amount(s2, Source(n.r))));
  }

  lemma SettingParts(sem: M.Semantics, alu: Alu, code: Code, at: nat, e: Expr, later: bool, p: Pool, reg: nat)
    requires Setting(sem, alu, code, at, e, later, p, reg)
    ensures Computes(sem, alu) && OrderFree(alu) && UniqueLabels(code) && p.Valid()
    ensures Placed(Final(e, later, p, reg))
  {
    hide Computes, OrderFree, UniqueLabels, Pool.Valid, Placed, Final, Emit;
  }

  lemma BinAllDone(sem: M.Semantics, alu: Alu, code: Code, at: nat, e: Expr, n: Node, p: Pool,
                   s: M.Store, s1: M.Store, s2: M.Store, w: M.World)
    requires e.Bin? && n.BinNode? && Placed(n)
    requires (InlineConst(n.l) || n.l.slot.At?) && (InlineConst(n.r) || n.r.slot.At?)
    requires var v := alu(e.op, Amount(s1, Source(n.l)), Amount(s2, Source(n.r)));
      && Runs(sem, code, at, s, at + |Emit(n)|, SetNum(s2, n.slot.reg, v), w)
      && Denotes(alu, e, s, v) && KeepsBut(p, n.slot.reg, s, SetNum(s2, n.slot.reg, v))
    ensures var v := alu(e.op, Amount(s1, Source(n.l)), Amount(s2, Source(n.r)));
      Done(sem, alu, code, at, e, n, p, s, SetNum(s2, n.slot.reg, v), w)
  {
    hide Runs, Denotes, KeepsBut, Emit, Placed, Source, Amount;
  }

  /** Where the parts of the operation's code stand, and what holds between its operands. */
  lemma BinReady(sem: M.Semantics, alu: Alu, code: Code, at: nat, e: Expr, later: bool, p: Pool, reg: nat,
                 a: Expr, la: bool, b: Expr, lb: bool)
    requires e.Bin? && Setting(sem, alu, code, at, e, later, p, reg) && Order(e, a, la, b, lb)
    ensures var n := Final(e, later, p, reg);
      && n.BinNode? && n.op == e.op && n.slot.At?
      && n.l == Walk(a, la, p).0 && n.r == Walk(b, lb, Walk(a, la, p).1).0
      && (InlineConst(n.l) || Placed(n.l)) && (InlineConst(n.r) || Placed(n.r))
      && var (p1, k1) := (Walk(a, la, p).1, at + |OperandCode(n.l)|);
      && p1.Valid() && Extends(p, p1) && OwnSlot(a, la, n.l, p, p1)
      && Stands(code, at, OperandCode(n.l)) && Stands(code, k1, OperandCode(n.r))
      && Stands(code, k1 + |OperandCode(n.r)|, [Arith(n.op, n.slot.reg, Source(n.l), Source(n.r))])
      && at + |Emit(n)| == k1 + |OperandCode(n.r)| + 1
      && VarsUsed(a, p) && VarsUsed(b, p) && VarsUsed(b, p1)
    ensures (la ==> a.Const?) && (lb ==> b.Const?)
    ensures (a == e.l && b == e.r) || (a == e.r && b == e.l && Swappable(e.op))
  {
    hide Walk, Stands, Emit, Placed, Computes, UniqueLabels, OwnSlot, OrderFree, Extends, Pool.Valid, Final;
    FinalBin(e, later, p, reg, a, la, b, lb);
    BinLayout(code, at, Final(e, later, p, reg));
    WalkPool(a, la, p);
    ExtendsValid(p, Walk(a, la, p).1);
    BinVars(e, a, la, b, lb, p, Walk(a, la, p).1);
  }

  lemma ExtendsValid(p: Pool, q: Pool)
    requires Extends(p, q)
    ensures q.Valid()
  {
  }

  lemma BinVars(e: Expr, a: Expr, la: bool, b: Expr, lb: bool, p: Pool, p1: Pool)
    requires e.Bin? && VarsUsed(e, p) && Order(e, a, la, b, lb) && Extends(p, p1)
    ensures VarsUsed(a, p) && VarsUsed(b, p) && VarsUsed(b, p1)
    ensures (a == e.l && b == e.r) || (a == e.r && b == e.l && Swappable(e.op))
  {
    VarsStayUsed(b, p, p1);
  }

  /** The order in which the operands are walked, and which is left in the instruction. */
  predicate Order(e: Expr, a: Expr, la: bool, b: Expr, lb: bool)
    requires e.Bin?
  {
    if Swaps(e.op, e.l, e.r) then a == e.r && b == e.l && !la && lb
    else a == e.l && b == e.r && la == LeftInline(e.op, a, b) && lb == RightInline(e.op, a, b)
  }

  lemma FinalBin(e: Expr, later: bool, p: Pool, reg: nat, a: Expr, la: bool, b: Expr, lb: bool)
    requires e.Bin? && Order(e, a, la, b, lb)
    ensures var n := Final(e, later, p, reg);
      && n.BinNode? && n.op == e.op && n.slot.At?
      && n.l == Walk(a, la, p).0 && n.r == Walk(b, lb, Walk(a, la, p).1).0
    ensures (la ==> a.Const?) && (lb ==> b.Const?)
  {
  }

  lemma {:induction false} LogicCase(sem: M.Semantics, alu: Alu, code: Code, at: nat, e: Expr, later: bool,
                                     p: Pool, reg: nat, s: M.Store, w: M.World) returns (t: M.Store)
    requires e.Logic? && Setting(sem, alu, code, at, e, later, p, reg)
    ensures Done(sem, alu, code, at, e, Final(e, later, p, reg), p, s, t, w)
    decreases e, 1
  {
    hide Walk, Runs, Stands, Emit, Placed, Computes, UniqueLabels, OwnSlot, Denotes, OrderFree, Extends,
      Keeps, KeepsBut, Pool.Valid, Final, Pool.Used, SetNum;
    var n := Final(e, later, p, reg);
    var p1 := Walk(e.l, !e.l.Var?, p).1;
    FinalLogic(e, later, p, reg);
    EmitLogic(n);
    LogicSettings(sem, alu, code, at, e, later, p, reg);
    var k := at + |Emit(n.l)| + 1;
    hide Setting;
    var s1 := Correct(sem, alu, code, at, e.l, !e.l.Var?, p, n.slot.reg, s, w);
    var s2 := Correct(sem, alu, code, k, e.r, !e.r.Var?, p1, n.slot.reg, s1, w);
    LogicDone(sem, alu, code, at, e, n, p, p1, s, s1, s2, w);
    t := LogicResult(e.and, n, s1, s2);
  }

  /** Both operands find what they need. */
  lemma LogicSettings(sem: M.Semantics, alu: Alu, code: Code, at: nat, e: Expr, later: bool, p: Pool, reg: nat)
    requires e.Logic? && Setting(sem, alu, code, at, e, later, p, reg)
    ensures var n := Final(e, later, p, reg);
      var p1 := Walk(e.l, !e.l.Var?, p).1;
      && n.LogicNode? && Placed(n) && Placed(n.l) && Placed(n.r) && n.slot.At?
      && Computes(sem, alu) && UniqueLabels(code) && Stands(code, at, Emit(n))
      && VarsUsed(e.l, p) && VarsUsed(e.r, p)
      && Setting(sem, alu, code, at, e.l, !e.l.Var?, p, n.slot.reg)
      && Setting(sem, alu, code, at + |Emit(n.l)| + 1, e.r, !e.r.Var?, p1, n.slot.reg)
  {
    hide Walk, Stands, Emit, Placed, Computes, UniqueLabels, OrderFree, Extends, Pool.Valid, Final, Pool.Used;
    var n := Final(e, later, p, reg);
    var p1 := Walk(e.l, !e.l.Var?, p).1;
    FinalLogic(e, later, p, reg);
    EmitLogic(n);
    LogicParts(code, at, n);
    ExtendsValid(p, p1);
    VarsStayUsed(e.r, p, p1);
  }

  lemma LogicDone(sem: M.Semantics, alu: Alu, code: Code, at: nat, e: Expr, n: Node, p: Pool, p1: Pool,
                  s: M.Store, s1: M.Store, s2: M.Store, w: M.World)
    requires Computes(sem, alu) && UniqueLabels(code)
    requires e.Logic? && n.LogicNode? && n.and == e.and && Placed(n) && Placed(n.l) && Placed(n.r)
    requires Stands(code, at, Emit(n)) && Extends(p, p1) && VarsUsed(e.r, p)
    requires e.l.Var? || !p.Used(n.l.slot.reg)
    requires e.r.Var? || !p1.Used(n.r.slot.reg)
    requires Done(sem, alu, code, at, e.l, n.l, p, s, s1, w)
    requires Done(sem, alu, code, at + |Emit(n.l)| + 1, e.r, n.r, p1, s1, s2, w)
    ensures Done(sem, alu, code, at, e, n, p, s, LogicResult(e.and, n, s1, s2), w)
  {
    hide Runs, Stands, Emit, Placed, Computes, UniqueLabels, Denotes, Extends, Keeps, KeepsBut, Pool.Used,
      SetNum, VarsUsed;
    OperandKeeps(sem, alu, code, at, e.l, n.l, p, s, s1, w);
    OperandKeeps(sem, alu, code, at + |Emit(n.l)| + 1, e.r, n.r, p1, s1, s2, w);
    DenotesSame(alu, e.r, p, s, s1, Num(s2, n.r.slot.reg));
    KeepsTrans(p, p1, s, s1, s2);
    LogicRuns(sem, alu, code, at, n, s, s1, s2, w);
    LogicMeans(sem, alu, code, at, e, n, p, s, s1, s2, w);
  }

  /** The operands of an and or an or: left to the node's register or their own; in
      both cases a register that was not in use when their code begins. */
  lemma FinalLogic(e: Expr, later: bool, p: Pool, reg: nat)
    requires e.Logic? && p.Valid()
    ensures var n := Final(e, later, p, reg);
      var p1 := Walk(e.l, !e.l.Var?, p).1;
      && n.LogicNode? && n.and == e.and && n.id == e.id && n.slot.At?
      && n.l == Final(e.l, !e.l.Var?, p, n.slot.reg) && n.r == Final(e.r, !e.r.Var?, p1, n.slot.reg)
      && Extends(p, p1)
      && (e.l.Var? || !p.Used(n.l.slot.reg)) && (e.r.Var? || !p1.Used(n.r.slot.reg))
  {
    hide Get, Pool.Valid, Pool.Used;
    var (x, p1) := Walk(e.l, !e.l.Var?, p);
    var (y, p2) := Walk(e.r, !e.r.Var?, p1);
    WalkPool(e.l, !e.l.Var?, p);
    WalkPool(e.r, !e.r.Var?, p1);
    LogicFree(p, p1, p2);
    FinalLogicIs(e, later, p, reg);
    hide Walk;
  }

  /** The shared register was free all along. */
  lemma LogicFree(p: Pool, p1: Pool, p2: Pool)
    requires Extends(p, p1) && Extends(p1, p2)
    ensures !p.Used(Get(p2).0) && !p1.Used(Get(p2).0)
  {
    GetUses(p2);
  }

  lemma FinalLogicIs(e: Expr, later: bool, p: Pool, reg: nat)
    requires e.Logic?
    ensures var n := Final(e, later, p, reg);
      var (x, p1) := Walk(e.l, !e.l.Var?, p);
      var (y, p2) := Walk(e.r, !e.r.Var?, p1);
      && n.LogicNode? && n.and == e.and && n.id == e.id && n.slot.At?
      && n.l == Settled(x, n.slot) && n.r == Settled(y, n.slot)
      && (x.slot.Later? || y.slot.Later? ==> n.slot.reg == Get(p2).0)
  {
    hide Get;
  }

  lemma LogicParts(code: Code, at: nat, n: Node)
    requires n.LogicNode? && Placed(n) && Placed(n.l) && Placed(n.r) && Stands(code, at, Emit(n))
    ensures Stands(code, at, Emit(n.l)) && Stands(code, at + |Emit(n.l)| + 1, Emit(n.r))
  {
    hide Emit, Stands, ShortCode, LongCode, Placed, EndLabel, ExitLabel;
    EmitLogic(n);
    var rr := n.r.slot.reg;
    if n.l.slot == n.slot {
      ShortLayout(code, at, n.and, n.id, n.slot.reg, rr, Emit(n.l), Emit(n.r));
    } else {
      LongLayout(code, at, n.and, n.id, n.slot.reg, n.l.slot.reg, rr, Emit(n.l), Emit(n.r));
    }
  }

  lemma {:induction false} UnCase(sem: M.Semantics, alu: Alu, code: Code, at: nat, e: Expr, later: bool,
                                  p: Pool, reg: nat, s: M.Store, w: M.World) returns (t: M.Store)
    requires e.Un? && Setting(sem, alu, code, at, e, later, p, reg)
    ensures Done(sem, alu, code, at, e, Final(e, later, p, reg), p, s, t, w)
    decreases e, 1
  {
    hide Walk, Runs, Stands, Emit, Placed, UniqueLabels, OrderFree, Computes, Keeps, KeepsBut, Final,
      Pool.Valid, Pool.Used, SetNum;
    var n := Final(e, later, p, reg);
    var x := Walk(e.e, false, p).0;
    FinalUn(e, later, p, reg);
    UnLayout(code, at, n);
    var s1 := OperandDone(sem, alu, code, at, e.e, false, p, s, w);
    var a := Num(s1, x.slot.reg);
    t := SetNum(s1, n.slot.reg, UnValue(alu, e.unop, a));
    UnRuns(sem, alu, code, at + |Emit(x)|, n, s1, w);
    RunsTrans(sem, code, at, s, at + |Emit(x)|, s1, at + |Emit(n)|, t, w);
    KeepsSet(p, s, s1, n.slot.reg, UnValue(alu, e.unop, a));
  }

  lemma FinalUn(e: Expr, later: bool, p: Pool, reg: nat)
    requires e.Un?
    ensures var n := Final(e, later, p, reg);
      n.UnNode? && n.unop == e.unop && n.slot.At? && n.e == Walk(e.e, false, p).0 && n.e.slot.At?
  {
    WalkPlaced(e.e, false, p, 0);
    hide Get;
  }

  /** The instruction of a unary operation; a plus onto the same register is none. */
  function UnTail(n: Node): Code
    requires n.UnNode? && n.slot.At? && n.e.slot.At?
  {
    match n.unop
    case Not => [Negation(n.slot.reg, n.e.slot.reg)]
    case Neg => [Arith(Sub, n.slot.reg, Int(0), R(n.e.slot.reg))]
    case Plus => CopyUnless(n.slot.reg, n.e.slot.reg)
  }

  lemma UnLayout(code: Code, at: nat, n: Node)
    requires n.UnNode? && Placed(n) && Stands(code, at, Emit(n))
    ensures Placed(n.e) && n.e.slot.At?
    ensures Stands(code, at, Emit(n.e)) && Stands(code, at + |Emit(n.e)|, UnTail(n))
    ensures |Emit(n)| == |Emit(n.e)| + |UnTail(n)|
  {
    assert Emit(n) == Emit(n.e) + UnTail(n);
    hide Stands, Emit;
    StandsSplit(code, at, Emit(n.e), UnTail(n));
  }

  lemma UnRuns(sem: M.Semantics, alu: Alu, code: Code, at: nat, n: Node, s: M.Store, w: M.World)
    requires Computes(sem, alu) && n.UnNode? && n.slot.At? && n.e.slot.At?
    requires Stands(code, at, UnTail(n))
    ensures Runs(sem, code, at, s, at + |UnTail(n)|,
      SetNum(s, n.slot.reg, UnValue(alu, n.unop, Num(s, n.e.slot.reg))), w)
  {
    var reg, x := n.slot.reg, n.e.slot.reg;
    var t := SetNum(s, reg, UnValue(alu, n.unop, Num(s, x)));
    hide Runs, Stands, M.Exec, Computes;
    match n.unop
    case Not =>
      CopySets(sem, alu, reg, x, s, w);
      RunsItem(sem, code, at, Negation(reg, x), s, t, w);
    case Neg =>
      ArithSets(sem, alu, Sub, reg, Int(0), R(x), s, w);
      RunsItem(sem, code, at, Arith(Sub, reg, Int(0), R(x)), s, t, w);
    case Plus => RunsCopy(sem, alu, code, at, reg, x, s, w);
  }
}
