/** Which registers the walk over an expression leaves in use, how many it needs, and which
    constants need none. */
module RegisterUse {
  import opened Assembly
  import opened Registers
  import opened Expressions
  import opened ExpressionCode

  /* ---- Which registers ---- */

  /** The register that an operand of and/or took for itself and does not share with the
      node: it is not returned. */
  function Unshared(x: Node, slot: Slot): set<nat> {
    if x.VarNode? || x.slot.Later? || x.slot == slot then {} else {x.slot.reg}
  }

  function Held(n: Node): set<nat> {
    match n
    case VarNode(_) => {}
    case ConstNode(_, _) => {}
    case BinNode(_, _, l, r) => Held(l) + Held(r)
    case LogicNode(slot, _, _, l, r) => Held(l) + Held(r) + Unshared(l, slot) + Unshared(r, slot)
    case UnNode(_, _, e) => Held(e)
  }

  /** The node's own register, which is not a variable's. */
  function Own(n: Node): set<nat> { if n.VarNode? || n.slot.Later? then {} else {n.slot.reg} }

  /** From `p` to `q` just these registers, unused before, came into use. */
  ghost predicate Took(p: Pool, q: Pool, regs: set<nat>) {
    && p.Valid() && q.Valid()
    && (forall x: nat :: q.Used(x) <==> p.Used(x) || x in regs)
    && (forall x: nat :: x in regs ==> !p.Used(x))
  }

  lemma TookTrans(p: Pool, q: Pool, r: Pool, a: set<nat>, b: set<nat>)
    requires Took(p, q, a) && Took(q, r, b)
    ensures Took(p, r, a + b) && a !! b
  {
    hide Pool.Valid, Pool.Used;
  }

  lemma TookOne(p: Pool, later: bool)
    requires p.Valid()
    ensures var (slot, q) := GetUnless(p, later);
      (slot.Later? <==> later) && Took(p, q, if slot.At? then {slot.reg} else {})
  {
    GetUses(p);
    hide Get, Pool.Valid, Pool.Used;
  }

  /** Giving a node's own register back leaves the others that came into use. */
  lemma TookBack(p: Pool, q: Pool, e: Expr, n: Node, regs: set<nat>)
    requires Took(p, q, regs) && Own(n) <= regs && (n.VarNode? <==> e.Var?)
    ensures Took(p, GiveBack(q, e, n), regs - Own(n))
  {
    if !e.Var? && n.slot.At? {
      assert q.Used(n.slot.reg);
      ReturnFrees(q, n.slot.reg);
    }
    hide Return, Pool.Valid, Pool.Used;
  }

  /** In use afterwards are the registers from before, the node's own, and those that
      operands of and/or keep for themselves. */
  lemma {:induction false} WalkTakes(e: Expr, later: bool, p: Pool)
    requires p.Valid()
    ensures var (n, q) := Walk(e, later, p);
      Took(p, q, Held(n) + Own(n)) && Held(n) !! Own(n) && (n.VarNode? <==> e.Var?)
    decreases e, 1
  {
    hide Get, Return, GiveBack, GetUnless, Took, Pool.Valid, Pool.Used;
    match e
    case Var(r) =>
      TookNone(p);
      assert Held(VarNode(At(r))) + Own(VarNode(At(r))) == {};
    case Const(v) =>
      TookOne(p, later);
      var (slot, q) := GetUnless(p, later);
      assert Held(ConstNode(slot, v)) + Own(ConstNode(slot, v)) == if slot.At? then {slot.reg} else {};
    case Bin(op, l, r) =>
      if Swaps(op, l, r) { OperandsTake(e, r, false, l, true, later, p); }
      else { OperandsTake(e, l, LeftInline(op, l, r), r, RightInline(op, l, r), later, p); }
    case Logic(_, _, l, r) => LogicTakes(e, later, p);
    case Un(_, e1) =>
      WalkTakes(e1, false, p);
      var (x, p1) := Walk(e1, false, p);
      TookBack(p, p1, e1, x, Held(x) + Own(x));
      TookValid(p, GiveBack(p1, e1, x), Held(x) + Own(x) - Own(x));
      var (slot, q) := GetUnless(GiveBack(p1, e1, x), later);
      TookOne(GiveBack(p1, e1, x), later);
      var own := if slot.At? then {slot.reg} else {};
      assert Held(x) + Own(x) - Own(x) == Held(x);
      TookTrans(p, GiveBack(p1, e1, x), q, Held(x), own);
  }

  lemma TookNone(p: Pool)
    requires p.Valid()
    ensures Took(p, p, {})
  {
  }

  lemma TookValid(p: Pool, q: Pool, regs: set<nat>)
    requires Took(p, q, regs)
    ensures q.Valid()
  {
  }

  lemma {:induction false} OperandsTake(e: Expr, a: Expr, la: bool, b: Expr, lb: bool, later: bool, p: Pool)
    requires p.Valid() && e.Bin? && ((a == e.l && b == e.r) || (a == e.r && b == e.l))
    ensures var (x, p1) := Walk(a, la, p);
      var (y, p2) := Walk(b, lb, p1);
      var (slot, q) := GetUnless(GiveBack(GiveBack(p2, a, x), b, y), later);
      var own := if slot.At? then {slot.reg} else {};
      Took(p, q, Held(x) + Held(y) + own) && (Held(x) + Held(y)) !! own
    decreases e, 0
  {
    hide Walk, Get, Return, GiveBack, GetUnless, Took, Pool.Valid, Pool.Used;
    var (x, p1) := Walk(a, la, p);
    WalkTakes(a, la, p);
    var one := Held(x) + Own(x);
    TookValid(p, p1, one);
    var (y, p2) := Walk(b, lb, p1);
    WalkTakes(b, lb, p1);
    var two := Held(y) + Own(y);
    TookTrans(p, p1, p2, one, two);
    TookBack(p, p2, a, x, one + two);
    TookBack(p, GiveBack(p2, a, x), b, y, one + two - Own(x));
    var p3 := GiveBack(GiveBack(p2, a, x), b, y);
    assert one + two - Own(x) - Own(y) == Held(x) + Held(y);
    TookValid(p, p3, Held(x) + Held(y));
    var (slot, q) := GetUnless(p3, later);
    TookOne(p3, later);
    TookTrans(p, p3, q, Held(x) + Held(y), if slot.At? then {slot.reg} else {});
  }

  /** A node that is given its register by its parent holds what it held. */
  lemma SettledHolds(n: Node, reg: nat)
    requires reg !in Held(n)
    ensures Held(Settled(n, At(reg))) == Held(n)
  {
  }

  lemma {:induction false} LogicTakes(e: Expr, later: bool, p: Pool)
    requires p.Valid() && e.Logic?
    ensures var (n, q) := Walk(e, later, p);
      Took(p, q, Held(n) + Own(n)) && Held(n) !! Own(n) && !n.VarNode?
    decreases e, 0
  {
    hide Get, Return, GiveBack, Took, Pool.Valid, Pool.Used;
    var (x, p1) := Walk(e.l, !e.l.Var?, p);
    WalkTakes(e.l, !e.l.Var?, p);
    TookValid(p, p1, Held(x) + Own(x));
    var (y, p2) := Walk(e.r, !e.r.Var?, p1);
    WalkTakes(e.r, !e.r.Var?, p1);
    var regs := Held(x) + Own(x) + (Held(y) + Own(y));
    TookTrans(p, p1, p2, Held(x) + Own(x), Held(y) + Own(y));
    TookValid(p, p2, regs);
    var (n, q) := Walk(e, later, p);
    TookOne(p2, later);
    TookOne(p2, false);
    assert Took(p2, q, Own(n));
    TookTrans(p, p2, q, regs, Own(n));
    assert Held(n) == regs by {
      if n.slot.At? {
        SettledHolds(x, n.slot.reg);
        SettledHolds(y, n.slot.reg);
      }
    }
  }

  /** Without and/or no operand keeps anything: a walk that has given its node a register
      takes this one only, and one that has not takes none. */
  predicate NoLogic(e: Expr) {
    match e
    case Var(_) => true
    case Const(_) => true
    case Bin(_, l, r) => NoLogic(l) && NoLogic(r)
    case Logic(_, _, _, _) => false
    case Un(_, e1) => NoLogic(e1)
  }

  lemma {:induction false} NothingHeld(e: Expr, later: bool, p: Pool)
    requires NoLogic(e)
    ensures Held(Walk(e, later, p).0) == {}
  {
    hide Get, GiveBack, GetUnless;
    match e
    case Var(_) =>
    case Const(_) => assert Walk(e, later, p).0.ConstNode?;
    case Bin(op, l, r) =>
      if Swaps(op, l, r) {
        NothingHeld(r, false, p);
        NothingHeld(l, true, Walk(r, false, p).1);
      } else {
        NothingHeld(l, LeftInline(op, l, r), p);
        NothingHeld(r, RightInline(op, l, r), Walk(l, LeftInline(op, l, r), p).1);
      }
    case Un(_, e1) => NothingHeld(e1, false, p);
  }

  lemma ArithmeticTakes(e: Expr, later: bool, p: Pool)
    requires p.Valid() && NoLogic(e)
    ensures var (n, q) := Walk(e, later, p);
      forall x: nat :: q.Used(x) <==> p.Used(x) || (!e.Var? && n.slot == At(x))
  {
    WalkTakes(e, later, p);
    NothingHeld(e, later, p);
  }

  /* ---- How many registers ---- */

  /** Registers in use; those not in use are on the free list. */
  function InUse(p: Pool): int { p.count - |p.free| }

  function Max(a: int, b: int): int { if a > b then a else b }

  /** The registers of the scope grow by what is needed beyond the ones free. */
  ghost predicate Grew(p: Pool, q: Pool, kept: nat, need: nat) {
    InUse(q) == InUse(p) + kept && q.count == Max(p.count, InUse(p) + need)
  }

  /** A constant operand goes into the instruction, the right one of two, unless the order
      of the operands matters. */
  function ConstLast(e: Expr): (Expr, bool, Expr, bool)
    requires e.Bin?
  {
    var any := e.op == Add || e.op == Mult || e.op == Eq || e.op == Ne;
    if e.r.Const? && (any || !e.l.Const?) then (e.l, false, e.r, true)
    else if !e.l.Const? then (e.l, false, e.r, false)
    else if any then (e.r, false, e.l, true)
    else (e.l, true, e.r, false)
  }

  /** Registers that the walk leaves in use, the node's own not counted. */
  function Kept(e: Expr): nat {
    match e
    case Var(_) => 0
    case Const(_) => 0
    case Bin(_, l, r) => Kept(l) + Kept(r)
    case Logic(_, _, l, r) => Kept(l) + Kept(r) + (if Takes(l, true) then 1 else 0) + (if Takes(r, true) then 1 else 0)
    case Un(_, e1) => Kept(e1)
  }

  /** A node has a register of its own unless it is left to the parent; and/or takes one
      anyway to share it with an operand. */
  predicate Takes(e: Expr, later: bool) {
    match e
    case Var(_) => false
    case Logic(_, _, l, r) =>
      !later || (!l.Var? && !Takes(l, true)) || (!r.Var? && !Takes(r, true))
    case _ => !later
  }

  function Net(e: Expr, later: bool): nat { Kept(e) + (if Takes(e, later) then 1 else 0) }

  /** Registers in use at most during the walk, beyond those in use before. */
  function Need(e: Expr, later: bool): nat {
    match e
    case Var(_) => 0
    case Const(_) => Net(e, later)
    case Bin(_, l, r) =>
      var (a, la, b, lb) := ConstLast(e);
      if la then Max(Need(b, false), Net(e, later))
      else if lb then Max(Need(a, false), Net(e, later))
      else Max(Max(Need(a, false), Net(a, false) + Need(b, false)), Net(e, later))
    case Logic(_, _, l, r) =>
      Max(Max(Need(l, !l.Var?), Net(l, !l.Var?) + Need(r, !r.Var?)), Net(e, later))
    case Un(_, e1) => Max(Need(e1, false), Net(e, later))
  }

  lemma GrewTrans(p: Pool, q: Pool, r: Pool, k1: nat, n1: nat, k2: nat, n2: nat)
    requires Grew(p, q, k1, n1) && Grew(q, r, k2, n2)
    ensures Grew(p, r, k1 + k2, Max(n1, k1 + n2))
  {
  }

  lemma GrewOne(p: Pool, later: bool)
    requires p.Valid()
    ensures var (slot, q) := GetUnless(p, later);
      (slot.Later? <==> later) && (if later then q == p else Grew(p, q, 1, 1) && |p.free| <= p.count)
  {
    FreeBelow(p.free, p.count);
  }

  lemma {:induction false} FreeBelow(s: seq<nat>, n: nat)
    requires (forall i, j :: 0 <= i < j < |s| ==> s[i] < s[j]) && (forall i :: 0 <= i < |s| ==> s[i] < n)
    ensures |s| <= n
  {
    if s != [] { FreeBelow(s[..|s| - 1], s[|s| - 1]); }
  }

  /** A register in use that is given back is one less in use. */
  lemma GrewBack(p: Pool, q: Pool, e: Expr, n: Node, kept: nat, need: nat, takes: bool)
    requires Grew(p, q, kept, need) && q.Valid() && (takes <==> !e.Var? && n.slot.At?)
    requires takes ==> kept > 0 && q.Used(n.slot.reg)
    ensures Grew(p, GiveBack(q, e, n), if takes then kept - 1 else kept, need)
    ensures GiveBack(q, e, n).Valid()
  {
    if takes {
      InsertedLonger(q.free, n.slot.reg);
      ReturnFrees(q, n.slot.reg);
    }
  }

  lemma {:induction false} InsertedLonger(s: seq<nat>, x: nat)
    ensures |Inserted(s, x)| == |s| + 1
  {
    if s != [] { InsertedLonger(s[..|s| - 1], x); }
  }

  /** After the operands the node takes its own register, unless it is left to the parent. */
  lemma ThenOwn(p: Pool, p3: Pool, later: bool, kept: nat, need: nat)
    requires Grew(p, p3, kept, need) && p3.Valid()
    ensures var (slot, q) := GetUnless(p3, later);
      var own := kept + if later then 0 else 1;
      Grew(p, q, own, Max(need, own)) && (slot.Later? <==> later)
  {
    GrewOne(p3, later);
    FreeBelow(p3.free, p3.count);
    hide GetUnless;
  }

  lemma GrewNone(p: Pool)
    requires p.Valid()
    ensures Grew(p, p, 0, 0)
  {
    FreeBelow(p.free, p.count);
  }

  lemma NeedNet(e: Expr, later: bool)
    ensures Need(e, later) >= Net(e, later)
  {
  }

  /** The walk leaves in use, and takes on the way, as many registers as the expression
      needs: all free ones are used up before a new one is handed out. */
  lemma {:induction false} WalkNeeds(e: Expr, later: bool, p: Pool)
    requires p.Valid()
    ensures var (n, q) := Walk(e, later, p);
      Grew(p, q, Net(e, later), Need(e, later)) && (Takes(e, later) <==> !e.Var? && n.slot.At?)
    decreases e, 1
  {
    hide Get, Return, GiveBack, GetUnless, Pool.Used, Pool.Valid, Grew, InUse, Need;
    GrewNone(p);
    match e
    case Var(_) => VarNeeds(e, later);
    case Const(_) => ConstNeeds(e, later, p);
    case Bin(op, l, r) =>
      var (a, la, b, lb) := ConstLast(e);
      OperandsNeed(e, a, la, b, lb, later, p);
      BinNeed(e, later);
    case Logic(_, _, l, r) => LogicNeeds(e, later, p);
    case Un(_, e1) => UnNeeds(e, later, p);
  }

  lemma VarNeeds(e: Expr, later: bool)
    requires e.Var?
    ensures Need(e, later) == 0
  {
  }

  lemma ConstNeeds(e: Expr, later: bool, p: Pool)
    requires p.Valid() && e.Const?
    ensures var (n, q) := Walk(e, later, p);
      Grew(p, q, Net(e, later), Need(e, later)) && n.slot.At? == !later
  {
    hide Get;
    GrewNone(p);
    ThenOwn(p, p, later, 0, 0);
  }

  lemma BinNeed(e: Expr, later: bool)
    requires e.Bin?
    ensures var (a, la, b, lb) := ConstLast(e);
      Need(e, later) == Max(Max(Need(a, la), Net(a, la) + Need(b, lb)), Net(e, later))
  {
    var (a, la, b, lb) := ConstLast(e);
    NeedNet(a, la);
  }

  lemma {:induction false} UnNeeds(e: Expr, later: bool, p: Pool)
    requires p.Valid() && e.Un?
    ensures var (n, q) := Walk(e, later, p);
      Grew(p, q, Net(e, later), Need(e, later)) && (Takes(e, later) <==> n.slot.At?)
    decreases e, 0
  {
    hide Get, Return, GiveBack, Pool.Valid, Grew, InUse;
    var e1 := e.e;
    var (x, p1) := Walk(e1, false, p);
    WalkNeeds(e1, false, p);
    TakenUsed(e1, false, p);
    GrewBack(p, p1, e1, x, Net(e1, false), Need(e1, false), Takes(e1, false));
    ThenOwn(p, GiveBack(p1, e1, x), later, Kept(e1), Need(e1, false));
  }

  /** The own register of a node is in use after the walk. */
  lemma TakenUsed(e: Expr, later: bool, p: Pool)
    requires p.Valid()
    ensures var (n, q) := Walk(e, later, p);
      q.Valid() && (!e.Var? && n.slot.At? ==> q.Used(n.slot.reg) && !p.Used(n.slot.reg))
  {
    WalkTakes(e, later, p);
    hide Pool.Used, Pool.Valid, Walk;
  }

  /** After both operands both registers are in use, and they are two. */
  lemma BothUsed(a: Expr, la: bool, b: Expr, lb: bool, p: Pool)
    requires p.Valid()
    ensures var (x, p1) := Walk(a, la, p);
      var (y, p2) := Walk(b, lb, p1);
      && p1.Valid() && p2.Valid()
      && (!a.Var? && x.slot.At? ==> p2.Used(x.slot.reg))
      && (!b.Var? && y.slot.At? ==> GiveBack(p2, a, x).Used(y.slot.reg))
  {
    var (x, p1) := Walk(a, la, p);
    var (y, p2) := Walk(b, lb, p1);
    TakenUsed(a, la, p);
    TakenUsed(b, lb, p1);
    WalkTakes(b, lb, p1);
    hide Walk;
    if !a.Var? && x.slot.At? { ReturnFrees(p2, x.slot.reg); }
    hide Return, Pool.Used, Pool.Valid;
  }

  lemma {:induction false} OperandsNeed(e: Expr, a: Expr, la: bool, b: Expr, lb: bool, later: bool, p: Pool)
    requires p.Valid() && e.Bin? && ((a == e.l && b == e.r) || (a == e.r && b == e.l))
    ensures var (x, p1) := Walk(a, la, p);
      var (y, p2) := Walk(b, lb, p1);
      var (slot, q) := GetUnless(GiveBack(GiveBack(p2, a, x), b, y), later);
      var own := Kept(a) + Kept(b) + if later then 0 else 1;
      Grew(p, q, own, Max(Max(Need(a, la), Net(a, la) + Need(b, lb)), own)) && (slot.Later? <==> later)
    decreases e, 0
  {
    hide Walk, Get, Return, GiveBack, GetUnless, Pool.Used, Pool.Valid, Grew, InUse, Need;
    var (x, p1) := Walk(a, la, p);
    var (y, p2) := Walk(b, lb, p1);
    BothUsed(a, la, b, lb, p);
    WalkNeeds(a, la, p);
    WalkNeeds(b, lb, p1);
    GrewTrans(p, p1, p2, Net(a, la), Need(a, la), Net(b, lb), Need(b, lb));
    var need := Max(Need(a, la), Net(a, la) + Need(b, lb));
    GrewBack(p, p2, a, x, Net(a, la) + Net(b, lb), need, Takes(a, la));
    GrewBack(p, GiveBack(p2, a, x), b, y, Kept(a) + Net(b, lb), need, Takes(b, lb));
    ThenOwn(p, GiveBack(GiveBack(p2, a, x), b, y), later, Kept(a) + Kept(b), need);
  }

  lemma {:induction false} LogicNeeds(e: Expr, later: bool, p: Pool)
    requires p.Valid() && e.Logic?
    ensures var (n, q) := Walk(e, later, p);
      Grew(p, q, Net(e, later), Need(e, later)) && (Takes(e, later) <==> n.slot.At?)
    decreases e, 0
  {
    hide Walk, Get, Return, Pool.Used, Pool.Valid, Grew, InUse, Need, Kept, Takes;
    var l, r := e.l, e.r;
    var (x, p1) := Walk(l, !l.Var?, p);
    var (y, p2) := Walk(r, !r.Var?, p1);
    BothUsed(l, !l.Var?, r, !r.Var?, p);
    WalkNeeds(l, !l.Var?, p);
    WalkNeeds(r, !r.Var?, p1);
    GrewTrans(p, p1, p2, Net(l, !l.Var?), Need(l, !l.Var?), Net(r, !r.Var?), Need(r, !r.Var?));
    var need := Max(Need(l, !l.Var?), Net(l, !l.Var?) + Need(r, !r.Var?));
    LogicKept(e, later, p);
    ThenOwn(p, p2, !Takes(e, later), Kept(e), need);
    LogicNeed(e, later);
  }

  lemma LogicNeed(e: Expr, later: bool)
    requires e.Logic?
    ensures var (l, r) := (e.l, e.r);
      Need(e, later) == Max(Max(Need(l, !l.Var?), Net(l, !l.Var?) + Need(r, !r.Var?)), Net(e, later))
  {
  }

  /** What the operands of and/or take they keep, and the node takes a register unless it
      is left to the parent and both operands have one. */
  lemma LogicKept(e: Expr, later: bool, p: Pool)
    requires e.Logic?
    requires var (l, r) := (e.l, e.r);
      var (x, p1) := Walk(l, !l.Var?, p);
      var (y, p2) := Walk(r, !r.Var?, p1);
      (Takes(l, !l.Var?) <==> !l.Var? && x.slot.At?) && (Takes(r, !r.Var?) <==> !r.Var? && y.slot.At?)
    ensures Kept(e) == Net(e.l, !e.l.Var?) + Net(e.r, !e.r.Var?)
    ensures var (l, r) := (e.l, e.r);
      var (x, p1) := Walk(l, !l.Var?, p);
      var (y, p2) := Walk(r, !r.Var?, p1);
      var (slot, q) := GetUnless(p2, !Takes(e, later));
      q == Walk(e, later, p).1 && (Takes(e, later) <==> Walk(e, later, p).0.slot.At?)
  {
    hide Get, Return, GiveBack, Pool.Valid, Pool.Used;
  }

  /** An operation with a constant operand has one constant in its instruction: the right
      operand, unless that is not constant and the order matters. The last instruction of
      its code is the operation. */
  lemma ImmediateOperand(e: Expr, p: Pool)
    requires e.Bin?
    ensures var n := Walk(e, false, p).0;
      && Placed(n) && |Emit(n)| > 0
      && var last := Emit(n)[|Emit(n)| - 1];
      && last.Instr? && last.op == Other(Mnemonic(e.op)) && last.a == R(n.slot.reg)
      && (if e.r.Const? && (e.op in {Add, Mult, Eq, Ne} || !e.l.Const?) then last.b.Reg? && last.c == Int(e.r.value)
          else if !e.l.Const? then last.b.Reg? && last.c.Reg?
          else if e.op in {Add, Mult, Eq, Ne} then last.b.Reg? && last.c == Int(e.l.value)
          else last.b == Int(e.l.value) && last.c.Reg?)
  {
    hide Get, Return, Emit;
    WalkPlaced(e, false, p, 0);
    var (a, la, b, lb) := ConstLast(e);
    WalkPlaced(a, la, p, 0);
    WalkPlaced(b, lb, Walk(a, la, p).1, 0);
    EmitLast(Walk(e, false, p).0);
  }

  lemma EmitLast(n: Node)
    requires n.BinNode? && Placed(n)
    ensures |Emit(n)| > 0
      && Emit(n)[|Emit(n)| - 1] == Instr(Other(Mnemonic(n.op)), R(n.slot.reg), Source(n.l), Source(n.r))
  {
  }
}
