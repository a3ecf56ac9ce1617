/** How many items the code of an expression takes, and that none of them copies a
    register onto itself. */
module CodeSize {
  import opened Assembly
  import opened Expressions

  /** Items for a node: an instruction for each operation and each constant that is not
      written into one; for and/or a test and a label, or three more items if the first
      operand has another register; and a copy where registers differ. */
  function Size(n: Node): nat {
    match n
    case VarNode(_) => 0
    case ConstNode(slot, _) => if slot.Later? then 0 else 1
    case BinNode(_, _, l, r) => Size(l) + Size(r) + 1
    case LogicNode(slot, _, _, l, r) =>
      Size(l) + Size(r) + (if l.slot == slot then 2 else 5) + (if r.slot == slot then 0 else 1)
    case UnNode(slot, op, e) => Size(e) + (if op == Plus && e.slot == slot then 0 else 1)
  }

  lemma {:induction false} EmitSize(n: Node)
    requires Placed(n)
    ensures |Emit(n)| == Size(n)
  {
    match n
    case VarNode(_) =>
    case ConstNode(_, _) =>
    case BinNode(_, _, l, r) =>
      if !InlineConst(l) { EmitSize(l); }
      if !InlineConst(r) { EmitSize(r); }
    case LogicNode(_, _, _, l, r) =>
      EmitSize(l);
      EmitSize(r);
    case UnNode(_, _, e) => EmitSize(e);
  }

  predicate SelfCopy(item: Item) { item.Instr? && item.op == Other("icopy") && item.a == item.b }

  predicate Useful(code: Code) { forall k :: 0 <= k < |code| ==> !SelfCopy(code[k]) }

  lemma UsefulAppend(a: Code, b: Code)
    requires Useful(a) && Useful(b)
    ensures Useful(a + b)
  {
    hide SelfCopy;
  }

  lemma NotCopy(op: BinOp, a: Operand, b: Operand, c: Operand)
    ensures Useful([Instr(Other(Mnemonic(op)), a, b, c)])
  {
    assert Mnemonic(op)[1] != 'c';
  }

  /** No instruction copies a register onto itself. */
  lemma {:induction false} NoSelfCopy(n: Node)
    requires Placed(n)
    ensures Useful(Emit(n))
  {
    hide SelfCopy, Useful, Mnemonic;
    NoCode();
    match n
    case VarNode(_) =>
    case ConstNode(slot, v) => NoLoad(slot.reg, v);
    case BinNode(slot, op, l, r) =>
      if !InlineConst(l) { NoSelfCopy(l); }
      if !InlineConst(r) { NoSelfCopy(r); }
      var a, b := if InlineConst(l) then [] else Emit(l), if InlineConst(r) then [] else Emit(r);
      NotCopy(op, R(slot.reg), Source(l), Source(r));
      UsefulAppend(a, b);
      UsefulAppend(a + b, [Instr(Other(Mnemonic(op)), R(slot.reg), Source(l), Source(r))]);
    case LogicNode(_, and, id, l, r) =>
      NoSelfCopy(l);
      NoSelfCopy(r);
      LogicUseful(and, id, n.slot.reg, l.slot.reg, r.slot.reg, Emit(l), Emit(r));
    case UnNode(slot, op, e) =>
      NoSelfCopy(e);
      LastUseful(n);
      UsefulAppend(Emit(e), Emit(n)[|Emit(e)|..]);
  }

  lemma NoCode()
    ensures Useful([])
  {
  }

  lemma NoLoad(r: nat, v: int)
    ensures Useful([Load(r, v)])
  {
  }

  lemma LastUseful(n: Node)
    requires n.UnNode? && Placed(n)
    ensures |Emit(n.e)| <= |Emit(n)| && Emit(n) == Emit(n.e) + Emit(n)[|Emit(n.e)|..]
    ensures Useful(Emit(n)[|Emit(n.e)|..])
  {
    var tail := match n.unop
      case Not => [Instr(Other("not"), R(n.slot.reg), R(n.e.slot.reg), None)]
      case Neg => [Instr(Other("isub"), R(n.slot.reg), Int(0), R(n.e.slot.reg))]
      case Plus => CopyUnless(n.slot.reg, n.e.slot.reg);
    assert Emit(n) == Emit(n.e) + tail;
    assert (Emit(n.e) + tail)[|Emit(n.e)|..] == tail;
  }

  lemma LogicUseful(and: bool, id: nat, reg: nat, rl: nat, rr: nat, a: Code, b: Code)
    requires Useful(a) && Useful(b)
    ensures Useful(ShortCode(and, id, reg, rr, a, b)) && Useful(LongCode(and, id, reg, rl, rr, a, b))
  {
    hide EndLabel, ExitLabel;
  }
}
