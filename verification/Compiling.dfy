/** Register assignment on the scope's own free list, assignments, and the labels of a
    whole expression. */
module Compiling {
  import opened Assembly
  import opened Registers
  import opened Expressions
  import opened Instructions
  import opened ExpressionCode
  import opened ExpressionProof
  import M = Machine

  /* ---- The walk over a scope ---- */

  method TakeUnless(scope: Scope, later: bool) returns (slot: Slot)
    requires scope.Valid()
    modifies scope`size, scope`count, scope`list
    ensures scope.Valid() && (slot, scope.Value()) == GetUnless(old(scope.Value()), later)
  {
    slot := Later;
    if !later {
      var r := scope.GetReg();
      slot := At(r);
    }
  }

  method Release(scope: Scope, e: Expr, n: Node)
    requires scope.Valid() && (!e.Var? && n.slot.At? ==> n.slot.reg < scope.count)
    modifies scope`pointers, scope`size, scope`list, scope.pointers
    ensures scope.Valid() && scope.Value() == GiveBack(old(scope.Value()), e, n)
    ensures scope.pointers == old(scope.pointers) || fresh(scope.pointers)
  {
    if !e.Var? && n.slot.At? { scope.RetReg(n.slot.reg); }
  }

  lemma SlotBelow(e: Expr, later: bool, p: Pool)
    requires p.Valid()
    ensures var (n, q) := Walk(e, later, p);
      p.count <= q.count && (!e.Var? && n.slot.At? ==> n.slot.reg < q.count)
  {
    WalkPool(e, later, p);
    UsedBelow(Walk(e, later, p).1);
  }

  /** Gives every node its register, children first, on the scope's free list. */
  method WalkRegisters(scope: Scope, e: Expr, later: bool) returns (n: Node)
    requires scope.Valid()
    modifies scope, scope.pointers
    ensures scope.Valid() && (scope.pointers == old(scope.pointers) || fresh(scope.pointers))
    ensures (n, scope.Value()) == Walk(e, later, old(scope.Value()))
    decreases e, 1
  {
    ghost var p := scope.Value();
    match e {
      case Var(r) => n := VarNode(At(r));
      case Const(v) =>
        var slot := TakeUnless(scope, later);
        n := ConstNode(slot, v);
      case Bin(op, l, r) =>
        if Swaps(op, l, r) {
          var x, y, slot := WalkOperands(scope, e, r, false, l, true, later);
          n := BinNode(slot, op, x, y);
        } else {
          var x, y, slot := WalkOperands(scope, e, l, LeftInline(op, l, r), r, RightInline(op, l, r), later);
          n := BinNode(slot, op, x, y);
        }
      case Logic(and, id, l, r) =>
        var x := WalkRegisters(scope, l, !l.Var?);
        var y := WalkRegisters(scope, r, !r.Var?);
        if x.slot.Later? || y.slot.Later? {
          var reg := scope.GetReg();
          n := LogicNode(At(reg), and, id, Settled(x, At(reg)), Settled(y, At(reg)));
        } else {
          var slot := TakeUnless(scope, later);
          n := LogicNode(slot, and, id, x, y);
        }
      case Un(op, e1) =>
        SlotBelow(e1, false, p);
        var x := WalkRegisters(scope, e1, false);
        Release(scope, e1, x);
        var slot := TakeUnless(scope, later);
        n := UnNode(slot, op, x);
    }
  }

  /** Both operands of a binary operation, then its own register. */
  method WalkOperands(scope: Scope, ghost e: Expr, a: Expr, la: bool, b: Expr, lb: bool, later: bool)
      returns (x: Node, y: Node, slot: Slot)
    requires scope.Valid()
    requires e.Bin? && ((a == e.l && b == e.r) || (a == e.r && b == e.l))
    modifies scope, scope.pointers
    ensures scope.Valid() && (scope.pointers == old(scope.pointers) || fresh(scope.pointers))
    ensures var (nx, p1) := Walk(a, la, old(scope.Value()));
      var (ny, p2) := Walk(b, lb, p1);
      x == nx && y == ny && (slot, scope.Value()) == GetUnless(GiveBack(GiveBack(p2, a, x), b, y), later)
    decreases e, 0
  {
    ghost var p := scope.Value();
    SlotBelow(a, la, p);
    x := WalkRegisters(scope, a, la);
    SlotBelow(b, lb, scope.Value());
    y := WalkRegisters(scope, b, lb);
    Release(scope, a, x);
    Release(scope, b, y);
    slot := TakeUnless(scope, later);
  }

  /* ---- Labels ---- */

  predicate IsDigit(c: char) { '0' <= c <= '9' }

  lemma {:induction false} DecimalDigits(n: nat)
    ensures |Decimal(n)| > 0 && forall k :: 0 <= k < |Decimal(n)| ==> IsDigit(Decimal(n)[k])
  {
    if n >= 10 { DecimalDigits(n / 10); }
  }

  /** The number that a string of digits stands for. */
  function ValueOf(s: string): int {
    if s == [] then 0 else 10 * ValueOf(s[..|s| - 1]) + (s[|s| - 1] as int - '0' as int)
  }

  /** Numbers are written in decimal digits, without leading zeros. */
  lemma {:induction false} DecimalValue(n: nat)
    ensures ValueOf(Decimal(n)) == n && |Decimal(n)| > 0 && (|Decimal(n)| > 1 ==> Decimal(n)[0] != '0')
    ensures n > 0 ==> Decimal(n)[0] != '0'
  {
    if n >= 10 {
      DecimalValue(n / 10);
      assert Decimal(n)[..|Decimal(n)| - 1] == Decimal(n / 10);
    } else {
      assert Decimal(n)[..0] == [];
    }
  }

  lemma {:induction false} DecimalInjective(m: nat, n: nat)
    requires Decimal(m) == Decimal(n)
    ensures m == n
  {
    DecimalDigits(m / 10);
    DecimalDigits(n / 10);
    var a, b := Decimal(m), Decimal(n);
    assert a[|a| - 1] == Digit(m % 10) && b[|b| - 1] == Digit(n % 10);
    DigitInjective(m % 10, n % 10);
    if m >= 10 && n >= 10 {
      assert a[..|a| - 1] == Decimal(m / 10) && b[..|b| - 1] == Decimal(n / 10);
      DecimalInjective(m / 10, n / 10);
    }
  }

  lemma DigitInjective(m: nat, n: nat)
    requires m < 10 && n < 10 && Digit(m) == Digit(n)
    ensures m == n
  {
  }

  /** Label names of different nodes differ, and so do different parts of one node. */
  lemma LabelNameInjective(i: nat, x: string, j: nat, y: string)
    requires x != [] && y != [] && !IsDigit(x[0]) && !IsDigit(y[0])
    requires LabelName(i, x) == LabelName(j, y)
    ensures i == j && x == y
  {
    var a, b := Decimal(i), Decimal(j);
    DecimalDigits(i);
    DecimalDigits(j);
    var t := a + x;
    assert ("l" + a + x)[1..] == t && ("l" + b + y)[1..] == b + y;
    DigitsEnd(a, x, b, y);
    DigitsEnd(b, y, a, x);
    assert a == t[..|a|] && b == t[..|b|] && x == t[|a|..] && y == t[|b|..];
    DecimalInjective(i, j);
  }

  /** Digits before a part that starts with none cannot be fewer. */
  lemma DigitsEnd(a: string, x: string, b: string, y: string)
    requires a + x == b + y && x != [] && !IsDigit(x[0])
    requires forall k :: 0 <= k < |b| ==> IsDigit(b[k])
    ensures |b| <= |a|
  {
    assert forall k :: 0 <= k < |b| ==> (b + y)[k] == b[k];
    assert (a + x)[|a|] == x[0];
  }

  /** The numbers of the and and or nodes. */
  function Numbers(e: Expr): multiset<nat> {
    match e
    case Var(_) => multiset{}
    case Const(_) => multiset{}
    case Bin(_, l, r) => Numbers(l) + Numbers(r)
    case Logic(_, id, l, r) => multiset{id} + Numbers(l) + Numbers(r)
    case Un(_, e1) => Numbers(e1)
  }

  function NodeNumbers(n: Node): multiset<nat> {
    match n
    case VarNode(_) => multiset{}
    case ConstNode(_, _) => multiset{}
    case BinNode(_, _, l, r) => NodeNumbers(l) + NodeNumbers(r)
    case LogicNode(_, _, id, l, r) => multiset{id} + NodeNumbers(l) + NodeNumbers(r)
    case UnNode(_, _, e) => NodeNumbers(e)
  }

  lemma SettledNumbers(e: Expr, later: bool, p: Pool, reg: nat)
    ensures NodeNumbers(Walk(e, later, p).0) == NodeNumbers(Final(e, later, p, reg))
  {
    hide Walk;
  }

  /** The walk keeps the node numbers. */
  lemma {:induction false} WalkNumbers(e: Expr, later: bool, p: Pool, reg: nat)
    requires p.Valid()
    ensures NodeNumbers(Final(e, later, p, reg)) == Numbers(e)
    decreases e, 1
  {
    hide GiveBack, GetUnless, Get, Pool.Valid;
    match e
    case Var(_) =>
    case Const(_) => hide Pool.Valid; assert Final(e, later, p, reg).ConstNode?;
    case Bin(op, l, r) =>
      hide Walk, Final, NodeNumbers, Numbers;
      if Swaps(op, l, r) { BinNumbers(e, later, p, reg, r, false, l, true); }
      else { BinNumbers(e, later, p, reg, l, LeftInline(op, l, r), r, RightInline(op, l, r)); }
    case Logic(_, _, l, r) => hide Walk, Final; LogicNumbers(e, later, p, reg);
    case Un(_, e1) =>
      hide Walk, Final;
      FinalUn(e, later, p, reg);
      WalkNumbers(e1, false, p, reg);
      SettledNumbers(e1, false, p, reg);
  }

  lemma {:induction false} LogicNumbers(e: Expr, later: bool, p: Pool, reg: nat)
    requires e.Logic? && p.Valid()
    ensures NodeNumbers(Final(e, later, p, reg)) == Numbers(e)
    decreases e, 0
  {
    hide Walk, Final, Get, Pool.Valid;
    FinalLogic(e, later, p, reg);
    var n, p1 := Final(e, later, p, reg), Walk(e.l, !e.l.Var?, p).1;
    ExtendsValid(p, p1);
    WalkNumbers(e.l, !e.l.Var?, p, n.slot.reg);
    WalkNumbers(e.r, !e.r.Var?, p1, n.slot.reg);
  }

  lemma {:induction false} BinNumbers(e: Expr, later: bool, p: Pool, reg: nat,
                                      a: Expr, la: bool, b: Expr, lb: bool)
    requires e.Bin? && p.Valid() && Order(e, a, la, b, lb)
    ensures NodeNumbers(Final(e, later, p, reg)) == Numbers(e)
    decreases e, 0
  {
    hide Walk, Final;
    FinalBin(e, later, p, reg, a, la, b, lb);
    WalkPool(a, la, p);
    var p1 := Walk(a, la, p).1;
    ExtendsValid(p, p1);
    WalkNumbers(a, la, p, reg);
    SettledNumbers(a, la, p, reg);
    WalkNumbers(b, lb, p1, reg);
    SettledNumbers(b, lb, p1, reg);
  }

  predicate Once(ids: multiset<nat>) { forall id :: id in ids ==> ids[id] == 1 }

  /** How often each label is defined. */
  function Labels(code: Code): multiset<Name> {
    if code == [] then multiset{}
    else (if code[0].Label? then multiset{code[0].name} else multiset{}) + Labels(code[1..])
  }

  lemma {:induction false} LabelsAppend(a: Code, b: Code)
    ensures Labels(a + b) == Labels(a) + Labels(b)
  {
    if a == [] {
      assert a + b == b;
    } else {
      assert (a + b)[1..] == a[1..] + b;
      LabelsAppend(a[1..], b);
    }
  }

  lemma {:induction false} LabelIn(code: Code, k: nat)
    requires k < |code| && code[k].Label?
    ensures Labels(code)[code[k].name] > 0
  {
    if k > 0 { LabelIn(code[1..], k - 1); }
  }

  lemma CountedTwice(code: Code, i: nat, j: nat)
    requires i < j < |code| && code[i].Label? && code[i] == code[j]
    ensures Labels(code)[code[i].name] >= 2
  {
    assert code == code[..j] + code[j..];
    LabelsAppend(code[..j], code[j..]);
    LabelIn(code[..j], i);
    LabelIn(code[j..], 0);
  }

  lemma OnceUnique(code: Code)
    requires forall name :: Labels(code)[name] <= 1
    ensures UniqueLabels(code)
  {
    forall i: nat, j: nat | i < j < |code| && code[i].Label? ensures code[i] != code[j] {
      if code[i] == code[j] {
        CountedTwice(code, i, j);
        assert false;
      }
    }
  }

  /** What follows the node number in a label. */
  predicate IsPart(part: string) { part != [] && !IsDigit(part[0]) }

  ghost predicate LabelOf(name: Name, id: nat) { exists part :: IsPart(part) && name == LabelName(id, part) }

  lemma LabelOfOne(name: Name, i: nat, j: nat)
    requires LabelOf(name, i) && LabelOf(name, j)
    ensures i == j
  {
    var x :| IsPart(x) && name == LabelName(i, x);
    var y :| IsPart(y) && name == LabelName(j, y);
    LabelNameInjective(i, x, j, y);
  }

  /** Different parts make different labels of one node. */
  lemma PartsDiffer(id: nat, x: string, y: string)
    requires IsPart(x) && IsPart(y) && x != y
    ensures LabelOf(LabelName(id, x), id) && LabelOf(LabelName(id, y), id) && LabelName(id, x) != LabelName(id, y)
  {
    if LabelName(id, x) == LabelName(id, y) { LabelNameInjective(id, x, id, y); }
  }

  /** The texts of the labels of and/or. */
  lemma LabelTexts(id: nat)
    ensures EndLabel(true, id) == Src("l" + Decimal(id) + "andend")
    ensures ExitLabel(true, id) == Src("l" + Decimal(id) + "andfalse")
    ensures EndLabel(false, id) == Src("l" + Decimal(id) + "orend")
    ensures ExitLabel(false, id) == Src("l" + Decimal(id) + "ortrue")
  {
  }

  lemma EndAndExit(and: bool, id: nat)
    ensures LabelOf(EndLabel(and, id), id) && LabelOf(ExitLabel(and, id), id)
    ensures EndLabel(and, id) != ExitLabel(and, id)
  {
    var x, y := if and then "andend" else "orend", if and then "andfalse" else "ortrue";
    assert x[0] != y[0] || |x| != |y|;
    PartsDiffer(id, x, y);
  }

  /** The labels of the code are defined once, and belong to nodes of the tree. */
  ghost predicate OwnLabels(code: Code, ids: multiset<nat>) {
    forall name :: Labels(code)[name] <= 1 && (Labels(code)[name] > 0 ==> exists id :: id in ids && LabelOf(name, id))
  }

  lemma {:induction false} NoLabels(code: Code)
    requires forall k :: 0 <= k < |code| ==> code[k].Instr?
    ensures Labels(code) == multiset{}
  {
    if code != [] { NoLabels(code[1..]); }
  }

  lemma OnceDisjoint(x: multiset<nat>, y: multiset<nat>)
    requires Once(x + y)
    ensures Once(x) && Once(y) && forall i :: i in x ==> i !in y
  {
    forall i | i in x ensures x[i] == 1 && y[i] == 0 {
      assert i in x + y && (x + y)[i] == x[i] + y[i];
    }
    forall i | i in y ensures y[i] == 1 {
      assert i in x + y && (x + y)[i] == x[i] + y[i];
    }
  }

  /** Labels of disjoint parts of a tree. */
  lemma LabelsJoin(a: Code, x: multiset<nat>, b: Code, y: multiset<nat>)
    requires OwnLabels(a, x) && OwnLabels(b, y) && Once(x + y)
    ensures OwnLabels(a + b, x + y)
  {
    LabelsAppend(a, b);
    OnceDisjoint(x, y);
    forall name
      ensures Labels(a + b)[name] <= 1
      ensures Labels(a + b)[name] > 0 ==> exists id :: id in x + y && LabelOf(name, id)
    {
      if Labels(a)[name] > 0 {
        var i :| i in x && LabelOf(name, i);
        assert i in x + y;
        if Labels(b)[name] > 0 {
          var j :| j in y && LabelOf(name, j);
          LabelOfOne(name, i, j);
          assert false;
        }
      } else if Labels(b)[name] > 0 {
        var j :| j in y && LabelOf(name, j);
        assert j in x + y;
      }
    }
  }

  /** The code of a node, cut into the operands' code and the rest. */
  lemma LabelsShort(and: bool, id: nat, reg: nat, rr: nat, a: Code, b: Code)
    ensures Labels(ShortCode(and, id, reg, rr, a, b)) == Labels(a + b + [Label(EndLabel(and, id))])
  {
    hide EndLabel;
    var skip, c, l := [Instr(Skip(and), Id(EndLabel(and, id)), R(reg), None)], CopyUnless(reg, rr),
      [Label(EndLabel(and, id))];
    NoLabels(skip);
    NoLabels(c);
    LabelsAppend(a + skip + b + c, l);
    LabelsAppend(a + skip + b, c);
    LabelsAppend(a + skip, b);
    LabelsAppend(a, skip);
    LabelsAppend(a + b, l);
    LabelsAppend(a, b);
  }

  lemma LabelsLong(and: bool, id: nat, reg: nat, rl: nat, rr: nat, a: Code, b: Code)
    ensures Labels(LongCode(and, id, reg, rl, rr, a, b))
      == Labels(a + b + [Label(ExitLabel(and, id)), Label(EndLabel(and, id))])
  {
    hide EndLabel, ExitLabel, Labels;
    var skip, c := [Instr(Skip(and), Id(ExitLabel(and, id)), R(rl), None)], CopyUnless(reg, rr);
    var jump, load := [Instr(Br, Id(EndLabel(and, id)), None, None)], [Load(reg, if and then 0 else 1)];
    var exit, end := [Label(ExitLabel(and, id))], [Label(EndLabel(and, id))];
    NoLabels(skip);
    NoLabels(c);
    NoLabels(jump);
    NoLabels(load);
    var front := a + skip + b + c;
    LabelsAppend(front + jump + exit + load, end);
    LabelsAppend(front + jump + exit, load);
    LabelsAppend(front + jump, exit);
    LabelsAppend(front, jump);
    LabelsAppend(a + skip + b, c);
    LabelsAppend(a + skip, b);
    LabelsAppend(a, skip);
    assert exit + end == [Label(ExitLabel(and, id)), Label(EndLabel(and, id))];
    LabelsAppend(a + b, exit + end);
    LabelsAppend(exit, end);
    LabelsAppend(a, b);
  }

  lemma OwnSame(a: Code, b: Code, ids: multiset<nat>)
    requires OwnLabels(a, ids) && Labels(a) == Labels(b)
    ensures OwnLabels(b, ids)
  {
  }

  lemma OwnNone(code: Code, ids: multiset<nat>)
    requires Labels(code) == multiset{}
    ensures OwnLabels(code, ids)
  {
  }

  lemma OwnEnds(and: bool, id: nat)
    ensures OwnLabels([Label(EndLabel(and, id))], multiset{id})
    ensures OwnLabels([Label(ExitLabel(and, id)), Label(EndLabel(and, id))], multiset{id})
  {
    EndAndExit(and, id);
    var exit, end := EndLabel(and, id), ExitLabel(and, id);
    assert Labels([Label(EndLabel(and, id))]) == multiset{EndLabel(and, id)};
    assert [Label(ExitLabel(and, id)), Label(EndLabel(and, id))][1..] == [Label(EndLabel(and, id))];
    assert id in multiset{id};
  }

  /** The labels in the code of a tree with unique node numbers are all different. */
  lemma {:induction false} EmitLabels(n: Node)
    requires Placed(n) && Once(NodeNumbers(n))
    ensures OwnLabels(Emit(n), NodeNumbers(n))
    decreases n, 1
  {
    match n
    case VarNode(_) => OwnNone([], NodeNumbers(n));
    case ConstNode(slot, v) => NoLabels(Emit(n)); OwnNone(Emit(n), NodeNumbers(n));
    case BinNode(_, _, _, _) => BinLabels(n);
    case LogicNode(_, and, id, l, r) => LogicLabels(n);
    case UnNode(_, _, e) => UnLabels(n);
  }

  lemma {:induction false} BinLabels(n: Node)
    requires n.BinNode? && Placed(n) && Once(NodeNumbers(n))
    ensures OwnLabels(Emit(n), NodeNumbers(n))
    decreases n, 0
  {
    hide OwnLabels, Once, Emit, Placed, Labels;
    EmitBin(n);
    var a, b := OperandCode(n.l), OperandCode(n.r);
    OnceDisjoint(NodeNumbers(n.l), NodeNumbers(n.r));
    OperandLabels(n.l);
    OperandLabels(n.r);
    LabelsJoin(a, NodeNumbers(n.l), b, NodeNumbers(n.r));
    var tail := [Arith(n.op, n.slot.reg, Source(n.l), Source(n.r))];
    NoLabels(tail);
    LabelsAppend(a + b, tail);
    OwnSame(a + b, Emit(n), NodeNumbers(n));
  }

  lemma {:induction false} UnLabels(n: Node)
    requires n.UnNode? && Placed(n) && Once(NodeNumbers(n))
    ensures OwnLabels(Emit(n), NodeNumbers(n))
    decreases n, 0
  {
    assert Placed(n.e) && Emit(n) == Emit(n.e) + UnTail(n);
    hide OwnLabels, Once, Emit, Placed, Labels;
    EmitLabels(n.e);
    NoLabels(UnTail(n));
    LabelsAppend(Emit(n.e), UnTail(n));
    OwnSame(Emit(n.e), Emit(n), NodeNumbers(n));
  }

  lemma {:induction false} OperandLabels(n: Node)
    requires (InlineConst(n) || Placed(n)) && Once(NodeNumbers(n))
    ensures OwnLabels(OperandCode(n), NodeNumbers(n))
    decreases n, 2
  {
    if InlineConst(n) { OwnNone([], NodeNumbers(n)); } else { EmitLabels(n); }
  }

  lemma {:induction false} LogicLabels(n: Node)
    requires n.LogicNode? && Placed(n) && Once(NodeNumbers(n))
    ensures OwnLabels(Emit(n), NodeNumbers(n))
    decreases n, 0
  {
    var a, b := NodeNumbers(n.l), NodeNumbers(n.r);
    EmitLogic(n);
    assert NodeNumbers(n) == (a + b) + multiset{n.id};
    OnceDisjoint(a + b, multiset{n.id});
    OnceDisjoint(a, b);
    hide OwnLabels, Once, Emit, Placed, NodeNumbers, ShortCode, LongCode, EndLabel, ExitLabel, Labels;
    EmitLabels(n.l);
    EmitLabels(n.r);
    LabelsJoin(Emit(n.l), a, Emit(n.r), b);
    OwnEnds(n.and, n.id);
    var x, y, rr := Emit(n.l), Emit(n.r), n.r.slot.reg;
    if n.l.slot == n.slot {
      LabelsJoin(x + y, a + b, [Label(EndLabel(n.and, n.id))], multiset{n.id});
      LabelsShort(n.and, n.id, n.slot.reg, rr, x, y);
      OwnSame(x + y + [Label(EndLabel(n.and, n.id))], Emit(n), NodeNumbers(n));
    } else {
      var ends := [Label(ExitLabel(n.and, n.id)), Label(EndLabel(n.and, n.id))];
      LabelsJoin(x + y, a + b, ends, multiset{n.id});
      LabelsLong(n.and, n.id, n.slot.reg, n.l.slot.reg, rr, x, y);
      OwnSame(x + y + ends, Emit(n), NodeNumbers(n));
    }
  }

  /* ---- Whole expressions ---- */

  /** Compiled on its own, an expression with unique node numbers whose variables have
      registers runs through and leaves one of its values in the result register. No
      register that was in use is changed. */
  lemma ExpressionCorrect(sem: M.Semantics, alu: Alu, e: Expr, p: Pool, s: M.Store, w: M.World)
      returns (t: M.Store)
    requires Computes(sem, alu) && OrderFree(alu)
    requires p.Valid() && VarsUsed(e, p) && Once(Numbers(e))
    ensures var (n, q) := Walk(e, false, p);
      && Placed(n) && Runs(sem, Emit(n), 0, s, |Emit(n)|, t, w)
      && Denotes(alu, e, s, Num(t, n.slot.reg)) && Keeps(p, s, t)
      && (forall r: nat :: p.Used(r) ==> q.Used(r)) && q.Used(n.slot.reg)
  {
    hide Walk, Emit, Runs, Denotes, Computes, OrderFree, Placed, Numbers, Once, NodeNumbers, VarsUsed;
    var (n, q) := Walk(e, false, p);
    WalkPool(e, false, p);
    WalkPlaced(e, false, p, 0);
    assert Final(e, false, p, n.slot.reg) == n;
    WalkNumbers(e, false, p, n.slot.reg);
    EmitLabels(n);
    OnceUnique(Emit(n));
    assert Emit(n)[0..0 + |Emit(n)|] == Emit(n);
    t := Correct(sem, alu, Emit(n), 0, e, false, p, n.slot.reg, s, w);
    VarRegister(e, p);
  }

  lemma VarRegister(e: Expr, p: Pool)
    ensures e.Var? && VarsUsed(e, p) ==> p.Used(e.reg)
  {
  }

  /* ---- Assignments ---- */

  /** The code of an assignment to the variable in register x: the expression goes
      straight there if its register is left to the assignment. */
  function AssignCode(n: Node, x: nat): Code
    requires Placed(n)
  {
    Emit(n) + (if n.slot.reg == x then [] else [FullCopy(x, n.slot.reg)])
  }

  /** After an assignment the variable has a value that the expression had before, even
      if it occurs in the expression, and no other register in use has changed. */
  lemma AssignCorrect(sem: M.Semantics, alu: Alu, code: Code, at: nat, e: Expr, x: nat, p: Pool,
                      s: M.Store, w: M.World) returns (t: M.Store)
    requires Setting(sem, alu, code, at, e, !e.Var?, p, x)
    requires Stands(code, at, AssignCode(Final(e, !e.Var?, p, x), x))
    ensures Runs(sem, code, at, s, at + |AssignCode(Final(e, !e.Var?, p, x), x)|, t, w)
    ensures Denotes(alu, e, s, Num(t, x)) && KeepsBut(p, x, s, t)
  {
    hide Walk, Emit, Placed, Denotes, Runs, Stands, Final, KeepsBut, SetNum;
    var n := Final(e, !e.Var?, p, x);
    var s1 := Correct(sem, alu, code, at, e, !e.Var?, p, x, s, w);
    if n.slot.reg == x {
      t := s1;
    } else {
      t := s1[R(x) := s1[R(n.slot.reg)]];
      hide Setting;
      StandsSplit(code, at, Emit(n), [FullCopy(x, n.slot.reg)]);
      SettingComputes(sem, alu, code, at, e, !e.Var?, p, x);
      CopyRuns(sem, alu, code, at + |Emit(n)|, x, n.slot.reg, s1, w);
      RunsTrans(sem, code, at, s, at + |Emit(n)|, s1, at + |Emit(n)| + 1, t, w);
      AssignKeeps(e, p, x, s, s1);
    }
  }

  lemma SettingComputes(sem: M.Semantics, alu: Alu, code: Code, at: nat, e: Expr, later: bool, p: Pool, reg: nat)
    requires Setting(sem, alu, code, at, e, later, p, reg)
    ensures Computes(sem, alu) && p.Valid()
  {
  }

  lemma CopyRuns(sem: M.Semantics, alu: Alu, code: Code, at: nat, to: nat, from: nat, s: M.Store, w: M.World)
    requires Computes(sem, alu) && Stands(code, at, [FullCopy(to, from)])
    ensures Runs(sem, code, at, s, at + 1, s[R(to) := s[R(from)]], w)
  {
    CopySets(sem, alu, to, from, s, w);
    hide M.Exec, Computes;
    RunsItem(sem, code, at, FullCopy(to, from), s, s[R(to) := s[R(from)]], w);
  }

  /** A register that is copied from was unused before, or is a variable's. */
  lemma AssignKeeps(e: Expr, p: Pool, x: nat, s: M.Store, t: M.Store)
    requires p.Valid()
    requires var n := Final(e, !e.Var?, p, x);
      n.slot.At? && n.slot.reg != x && KeepsBut(p, n.slot.reg, s, t) && (e.Var? ==> t == s)
    ensures var n := Final(e, !e.Var?, p, x);
      KeepsBut(p, x, s, t[R(x) := t[R(n.slot.reg)]])
  {
    WalkPool(e, !e.Var?, p);
    hide Walk;
  }
}
