/** Integer and boolean expressions of the compiler, the registers its walker gives
    them, and the code it emits for them. */
module Expressions {
  import opened Assembly
  import opened Registers

  datatype BinOp = Add | Sub | Mult | Div | Mod | Pow | Eq | Ne | Gt | Lt | Gte | Lte
  datatype UnOp = Not | Neg | Plus

  /** Variables carry the register they have been given before; `id` is the node
      number, which goes into label names. */
  datatype Expr =
    | Var(reg: nat)
    | Const(value: int)
    | Bin(op: BinOp, l: Expr, r: Expr)
    | Logic(and: bool, id: nat, l: Expr, r: Expr)
    | Un(unop: UnOp, e: Expr)

  /* ---- Registers ---- */

  /** The register of a node, or a mark that its parent sets it. */
  datatype Slot = Later | At(reg: nat)

  datatype Node =
    | VarNode(slot: Slot)
    | ConstNode(slot: Slot, value: int)
    | BinNode(slot: Slot, op: BinOp, l: Node, r: Node)
    | LogicNode(slot: Slot, and: bool, id: nat, l: Node, r: Node)
    | UnNode(slot: Slot, unop: UnOp, e: Node)

  /** Operations that do not care for the order of their operands. */
  predicate Swappable(op: BinOp) { op == Eq || op == Ne || op == Add || op == Mult }

  /** The constant of a swappable operation goes to the right. */
  predicate Swaps(op: BinOp, l: Expr, r: Expr) { Swappable(op) && !r.Const? && l.Const? }

  /** Which operand is a constant written into the instruction; never both. */
  predicate LeftInline(op: BinOp, l: Expr, r: Expr) { !Swappable(op) && l.Const? }
  predicate RightInline(op: BinOp, l: Expr, r: Expr) { r.Const? && !LeftInline(op, l, r) }

  /** A temporary goes back to the free list. */
  function GiveBack(p: Pool, e: Expr, n: Node): Pool {
    if !e.Var? && n.slot.At? then Return(p, n.slot.reg) else p
  }

  function GetUnless(p: Pool, later: bool): (Slot, Pool) {
    if later then (Later, p) else var (r, q) := Get(p); (At(r), q)
  }

  function Settled(n: Node, slot: Slot): Node {
    if n.slot.Later? then n.(slot := slot) else n
  }

  /** The register walk: operands first, then their temporaries are returned, then the
      node's own register is taken, unless it is left to the parent. The operands of
      and and or share the node's register where they can. */
  function Walk(e: Expr, later: bool, p: Pool): (Node, Pool) {
    match e
    case Var(r) => (VarNode(At(r)), p)
    case Const(v) =>
      var (slot, q) := GetUnless(p, later);
      (ConstNode(slot, v), q)
    case Bin(op, l, r) =>
      if Swaps(op, l, r) then
        var (x, p1) := Walk(r, false, p);
        var (y, p2) := Walk(l, true, p1);
        var (slot, q) := GetUnless(GiveBack(GiveBack(p2, r, x), l, y), later);
        (BinNode(slot, op, x, y), q)
      else
        var (x, p1) := Walk(l, LeftInline(op, l, r), p);
        var (y, p2) := Walk(r, RightInline(op, l, r), p1);
        var (slot, q) := GetUnless(GiveBack(GiveBack(p2, l, x), r, y), later);
        (BinNode(slot, op, x, y), q)
    case Logic(and, id, l, r) =>
      var (x, p1) := Walk(l, !l.Var?, p);
      var (y, p2) := Walk(r, !r.Var?, p1);
      if x.slot.Later? || y.slot.Later? then
        var (reg, q) := Get(p2);
        (LogicNode(At(reg), and, id, Settled(x, At(reg)), Settled(y, At(reg))), q)
      else
        var (slot, q) := GetUnless(p2, later);
        (LogicNode(slot, and, id, x, y), q)
    case Un(op, e1) =>
      var (x, p1) := Walk(e1, false, p);
      var (slot, q) := GetUnless(GiveBack(p1, e1, x), later);
      (UnNode(slot, op, x), q)
  }

  /* ---- Code ---- */

  function Mnemonic(op: BinOp): string {
    match op
    case Add => "iadd" case Sub => "isub" case Mult => "imult" case Div => "idiv"
    case Mod => "imod" case Pow => "ipow" case Eq => "ieq" case Ne => "ine"
    case Gt => "igt" case Lt => "ilt" case Gte => "igte" case Lte => "ilte"
  }

  function R(n: nat): Operand { Reg(Local, n) }

  function Load(r: nat, v: int): Item { Instr(Other("load"), R(r), Int(v), None) }
  function Copy(to: nat, from: nat): Item { Instr(Other("icopy"), R(to), R(from), None) }

  function Decimal(n: nat): string {
    if n < 10 then [Digit(n)] else Decimal(n / 10) + [Digit(n % 10)]
  }

  function Digit(n: nat): char
    requires n < 10
  {
    "0123456789"[n]
  }

  function LabelName(id: nat, part: string): Name { Src("l" + Decimal(id) + part) }

  function EndLabel(and: bool, id: nat): Name { LabelName(id, Part(if and then 0 else 2)) }
  function ExitLabel(and: bool, id: nat): Name { LabelName(id, Part(if and then 1 else 3)) }

  function Part(k: nat): string {
    if k == 0 then "andend" else if k == 1 then "andfalse" else if k == 2 then "orend" else "ortrue"
  }

  /** Every register that the code needs is set. */
  predicate Placed(n: Node): (r: bool)
    ensures r ==> n.slot.At? && !InlineConst(n)
  {
    && n.slot.At?
    && match n
       case VarNode(_) => true
       case ConstNode(_, _) => true
       case BinNode(_, _, l, r) => (if InlineConst(l) then Placed(r) else Placed(l) && (InlineConst(r) || Placed(r)))
       case LogicNode(_, _, _, l, r) => Placed(l) && Placed(r)
       case UnNode(_, _, e) => Placed(e)
  }

  predicate InlineConst(n: Node) { n.ConstNode? && n.slot.Later? }

  function Source(n: Node): Operand
    requires InlineConst(n) || n.slot.At?
  {
    if InlineConst(n) then Int(n.value) else R(n.slot.reg)
  }

  function CopyUnless(to: nat, from: nat): Code { if to == from then [] else [Copy(to, from)] }

  function Skip(and: bool): Op { if and then Brf else Brt }

  /** And/or when the first operand has the node's register: it is the result if it decides. */
  function ShortCode(and: bool, id: nat, reg: nat, rr: nat, l: Code, r: Code): Code {
    l + [Instr(Skip(and), Id(EndLabel(and, id)), R(reg), None)]
    + r + CopyUnless(reg, rr) + [Label(EndLabel(and, id))]
  }

  /** And/or in the other case: a deciding first operand makes the result 0 or 1. */
  function LongCode(and: bool, id: nat, reg: nat, rl: nat, rr: nat, l: Code, r: Code): Code {
    l + [Instr(Skip(and), Id(ExitLabel(and, id)), R(rl), None)]
    + r + CopyUnless(reg, rr) + [Instr(Br, Id(EndLabel(and, id)), None, None)]
    + [Label(ExitLabel(and, id))] + [Load(reg, if and then 0 else 1)] + [Label(EndLabel(and, id))]
  }

  /** The instructions for a node, in order. */
  function Emit(n: Node): Code
    requires Placed(n)
  {
    var reg := n.slot.reg;
    match n
    case VarNode(_) => []
    case ConstNode(_, v) => [Load(reg, v)]
    case BinNode(_, op, l, r) =>
      (if InlineConst(l) then [] else Emit(l)) + (if InlineConst(r) then [] else Emit(r))
      + [Instr(Other(Mnemonic(op)), R(reg), Source(l), Source(r))]
    case LogicNode(_, and, id, l, r) =>
      assert Placed(l) && Placed(r);
      if l.slot == At(reg) then ShortCode(and, id, reg, r.slot.reg, Emit(l), Emit(r))
      else LongCode(and, id, reg, l.slot.reg, r.slot.reg, Emit(l), Emit(r))
    case UnNode(_, op, e) =>
      Emit(e) + (match op
        case Not => [Instr(Other("not"), R(reg), R(e.slot.reg), None)]
        case Neg => [Instr(Other("isub"), R(reg), Int(0), R(e.slot.reg))]
        case Plus => CopyUnless(reg, e.slot.reg))
  }

  /* ---- What the walk does to the pool ---- */

  /** All variables of the expression have registers that are in use. */
  predicate VarsUsed(e: Expr, p: Pool) {
    match e
    case Var(r) => p.Used(r)
    case Const(_) => true
    case Bin(_, l, r) => VarsUsed(l, p) && VarsUsed(r, p)
    case Logic(_, _, l, r) => VarsUsed(l, p) && VarsUsed(r, p)
    case Un(_, e1) => VarsUsed(e1, p)
  }

  /** `q` has in use what `p` has, and more registers at most. */
  ghost predicate Extends(p: Pool, q: Pool) {
    p.Valid() && q.Valid() && p.count <= q.count && forall x: nat :: p.Used(x) ==> q.Used(x)
  }

  lemma {:induction false} VarsStayUsed(e: Expr, p: Pool, q: Pool)
    requires VarsUsed(e, p) && Extends(p, q)
    ensures VarsUsed(e, q)
  {
    match e
    case Var(r) =>
    case Const(_) =>
    case Bin(_, l, r) => VarsStayUsed(l, p, q); VarsStayUsed(r, p, q);
    case Logic(_, _, l, r) => VarsStayUsed(l, p, q); VarsStayUsed(r, p, q);
    case Un(_, e1) => VarsStayUsed(e1, p, q);
  }

  /** A node's own register was unused before and is in use after the walk. */
  ghost predicate OwnSlot(e: Expr, later: bool, n: Node, p: Pool, q: Pool) {
    if e.Var? then n.slot == At(e.reg)
    else if n.slot.At? then !p.Used(n.slot.reg) && q.Used(n.slot.reg)
    else later
  }

  lemma GetExtends(p: Pool, later: bool)
    requires p.Valid()
    ensures var (slot, q) := GetUnless(p, later);
      && Extends(p, q) && (slot.Later? <==> later)
      && (slot.At? ==> !p.Used(slot.reg) && q.Used(slot.reg))
  {
    GetUses(p);
  }

  /** Giving back a temporary taken since `p` leaves what `p` had in use. */
  lemma GiveBackExtends(p: Pool, q: Pool, e: Expr, n: Node)
    requires Extends(p, q) && (!e.Var? && n.slot.At? ==> !p.Used(n.slot.reg) && n.slot.reg < q.count)
    ensures Extends(p, GiveBack(q, e, n)) && GiveBack(q, e, n).count == q.count
  {
    if !e.Var? && n.slot.At? { ReturnFrees(q, n.slot.reg); }
  }

  lemma {:induction false} WalkPool(e: Expr, later: bool, p: Pool)
    requires p.Valid()
    ensures var (n, q) := Walk(e, later, p);
      Extends(p, q) && OwnSlot(e, later, n, p, q)
  {
    hide Return, Get, Pool.Used, Pool.Valid;
    match e
    case Var(r) =>
    case Const(v) => GetExtends(p, later);
    case Bin(op, l, r) =>
      if Swaps(op, l, r) {
        WalkPool(r, false, p);
        WalkPool(l, true, Walk(r, false, p).1);
        BinPool(r, false, l, true, later, p);
      } else {
        var x := LeftInline(op, l, r);
        var y := RightInline(op, l, r);
        WalkPool(l, x, p);
        WalkPool(r, y, Walk(l, x, p).1);
        BinPool(l, x, r, y, later, p);
      }
    case Logic(and, id, l, r) =>
      WalkPool(l, !l.Var?, p);
      var p1 := Walk(l, !l.Var?, p).1;
      WalkPool(r, !r.Var?, p1);
      var p2 := Walk(r, !r.Var?, p1).1;
      hide Walk;
      ExtendsTrans(p, p1, p2);
      LogicPool(p, p2, later);
      LogicPool(p, p2, false);
    case Un(op, e1) =>
      WalkPool(e1, false, p);
      var (x, p1) := Walk(e1, false, p);
      UsedBelow(p1);
      GiveBackExtends(p, p1, e1, x);
      GetExtends(GiveBack(p1, e1, x), later);
      ExtendsTrans(p, GiveBack(p1, e1, x), GetUnless(GiveBack(p1, e1, x), later).1);
  }

  lemma UsedBelow(p: Pool)
    ensures forall x: nat :: p.Used(x) ==> x < p.count
  {
  }

  lemma ExtendsTrans(p: Pool, q: Pool, r: Pool)
    requires Extends(p, q) && Extends(q, r)
    ensures Extends(p, r)
  {
  }

  /** The operands of a binary operation in the order they are walked, then the
      operation's own register. */
  lemma BinPool(a: Expr, la: bool, b: Expr, lb: bool, later: bool, p: Pool)
    requires var (x, p1) := Walk(a, la, p);
      var (y, p2) := Walk(b, lb, p1);
      && Extends(p, p1) && Extends(p1, p2) && OwnSlot(a, la, x, p, p1) && OwnSlot(b, lb, y, p1, p2)
    ensures var (x, p1) := Walk(a, la, p);
      var (y, p2) := Walk(b, lb, p1);
      var (slot, q) := GetUnless(GiveBack(GiveBack(p2, a, x), b, y), later);
      && Extends(p, q)
      && (slot.Later? <==> later) && (slot.At? ==> !p.Used(slot.reg) && q.Used(slot.reg))
  {
    hide Return, Get, Pool.Valid, Walk;
    var (x, p1) := Walk(a, la, p);
    var (y, p2) := Walk(b, lb, p1);
    UsedBelow(p1);
    UsedBelow(p2);
    ExtendsTrans(p, p1, p2);
    GiveBackExtends(p, p2, a, x);
    GiveBackExtends(p, GiveBack(p2, a, x), b, y);
    GetExtends(GiveBack(GiveBack(p2, a, x), b, y), later);
  }

  lemma LogicPool(p: Pool, p2: Pool, later: bool)
    requires Extends(p, p2)
    ensures var (slot, q) := GetUnless(p2, later);
      && Extends(p, q) && Extends(p2, q) && (slot.Later? <==> later)
      && (slot.At? ==> !p.Used(slot.reg) && !p2.Used(slot.reg) && q.Used(slot.reg))
  {
    GetExtends(p2, later);
    hide Get;
  }
}
