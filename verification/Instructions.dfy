/** The integer instructions of the interpreter, by their text, and a machine that has
    them all. */
module Instructions {
  import opened Assembly
  import opened Expressions
  import M = Machine

  /** Arithmetic and comparison: a parameter, so that it covers overflow, division and
      any other behaviour of the interpreter's integers. */
  type Alu = (BinOp, int, int) -> int

  ghost predicate OrderFree(alu: Alu) {
    forall op, x, y :: Swappable(op) ==> alu(op, x, y) == alu(op, y, x)
  }

  ghost predicate Arithmetic(alu: Alu) {
    && (forall x, y :: alu(Add, x, y) == x + y)
    && (forall x, y :: alu(Gt, x, y) == if x > y then 1 else 0)
    && (forall x, y :: alu(Lt, x, y) == if x < y then 1 else 0)
  }

  function SetNum(store: M.Store, r: nat, v: int): M.Store {
    store[Reg(Local, r) := store[Reg(Local, r)].(num := v)]
  }

  function Num(store: M.Store, r: nat): int { store[Reg(Local, r)].num }

  function Amount(store: M.Store, o: Operand): int {
    if o.Int? then o.value else M.Read(store, o).num
  }

  predicate Integer(o: Operand) { o.Int? || o.Reg? }

  /** The instruction sets one register and goes on to the next instruction. */
  ghost predicate Sets(sem: M.Semantics, item: Item, r: nat, v: M.Value, store: M.Store, w: M.World)
    requires item.Instr?
  {
    M.Exec(sem, item, store, w) == M.Act(store[Reg(Local, r) := v], w, M.Next)
  }

  ghost predicate SetsNum(sem: M.Semantics, item: Item, r: nat, v: int, store: M.Store, w: M.World)
    requires item.Instr?
  {
    Sets(sem, item, r, store[Reg(Local, r)].(num := v), store, w)
  }

  /* ---- Calculation ---- */

  /** The instruction of this name puts the result of the operation on its second and
      third operand into its first. */
  ghost predicate Three(sem: M.Semantics, name: string, alu: Alu, op: BinOp, store: M.Store, w: M.World) {
    forall r: nat, x: Operand, y: Operand :: Integer(x) && Integer(y) ==>
      SetsNum(sem, Instr(Other(name), Reg(Local, r), x, y), r, alu(op, Amount(store, x), Amount(store, y)), store, w)
  }

  ghost predicate Computes(sem: M.Semantics, alu: Alu) {
    forall store: M.Store, w: M.World :: ComputesAt(sem, alu, store, w)
  }

  ghost predicate ComputesAt(sem: M.Semantics, alu: Alu, store: M.Store, w: M.World) {
    && Three(sem, "iadd", alu, Add, store, w) && Three(sem, "isub", alu, Sub, store, w)
    && Three(sem, "imult", alu, Mult, store, w) && Three(sem, "idiv", alu, Div, store, w)
    && Three(sem, "imod", alu, Mod, store, w) && Three(sem, "ipow", alu, Pow, store, w)
    && Three(sem, "ieq", alu, Eq, store, w) && Three(sem, "ine", alu, Ne, store, w)
    && Three(sem, "igt", alu, Gt, store, w) && Three(sem, "ilt", alu, Lt, store, w)
    && Three(sem, "igte", alu, Gte, store, w) && Three(sem, "ilte", alu, Lte, store, w)
    && (forall r: nat, v: int :: SetsNum(sem, Instr(Other("load"), Reg(Local, r), Int(v), None), r, v, store, w))
    && (forall r: nat, x: nat ::
          SetsNum(sem, Instr(Other("icopy"), Reg(Local, r), Reg(Local, x), None), r, Num(store, x), store, w))
    && (forall r: nat, x: nat ::
          Sets(sem, Instr(Other("copy"), Reg(Local, r), Reg(Local, x), None), r, store[Reg(Local, x)], store, w))
    && (forall r: nat, x: nat ::
          SetsNum(sem, Instr(Other("not"), Reg(Local, r), Reg(Local, x), None), r,
                  if Num(store, x) == 0 then 1 else 0, store, w))
  }

  /* ---- Counting ---- */

  /** `inc` counts up; `bcf` branches when its register is zero and counts down otherwise. */
  ghost predicate LoopOps(sem: M.Semantics) {
    forall store: M.Store, w: M.World :: LoopOpsAt(sem, store, w)
  }

  ghost predicate LoopOpsAt(sem: M.Semantics, store: M.Store, w: M.World) {
    && (forall r: nat ::
          SetsNum(sem, Instr(Other("inc"), Reg(Local, r), None, None), r, Num(store, r) + 1, store, w))
    && (forall name: Name, r: nat ::
          CountsDown(sem, Instr(Other("bcf"), Id(name), Reg(Local, r), None), name, r, store, w))
  }

  ghost predicate CountsDown(sem: M.Semantics, item: Item, name: Name, r: nat, store: M.Store, w: M.World)
    requires item.Instr?
  {
    M.Exec(sem, item, store, w) == if Num(store, r) == 0 then M.Act(store, w, M.To(name))
                                   else M.Act(SetNum(store, r, Num(store, r) - 1), w, M.Next)
  }

  /* ---- A machine that has them ---- */

  function Value(o: Operand, v: M.Value): int { if o.Int? then o.value else v.num }

  /** What is put into the first operand; other instructions leave it alone. */
  function Result(alu: Alu, item: Item, a: M.Value, b: M.Value, c: M.Value): M.Value {
    if !(item.Instr? && item.op.Other?) then a
    else
      var m, x, y := item.op.mnemonic, Value(item.b, b), Value(item.c, c);
      if m == "copy" then b
      else if m == "inc" then a.(num := a.num + 1)
      else if m == "load" || m == "icopy" then a.(num := x)
      else if m == "not" then a.(num := if x == 0 then 1 else 0)
      else
        var op := OpOf(m);
        if op.Present? then a.(num := alu(op.value, x, y)) else a
  }

  datatype Option<T> = Absent | Present(value: T)

  function OpOf(m: string): Option<BinOp> {
    if m == "iadd" then Present(Add) else if m == "isub" then Present(Sub)
    else if m == "imult" then Present(Mult) else if m == "idiv" then Present(Div)
    else if m == "imod" then Present(Mod) else if m == "ipow" then Present(Pow)
    else if m == "ieq" then Present(Eq) else if m == "ine" then Present(Ne)
    else if m == "igt" then Present(Gt) else if m == "ilt" then Present(Lt)
    else if m == "igte" then Present(Gte) else if m == "ilte" then Present(Lte)
    else Absent
  }

  /** What `bcf` does; the other instructions with label operands do nothing here. */
  function Far(item: Item, s: M.Store, w: M.World): M.FarEffect {
    if item.Instr? && item.op == Other("bcf") && item.b.Reg? then
      if s[item.b].num == 0 then M.FarEffect(s, w, M.Jump(0))
      else M.FarEffect(s[item.b := s[item.b].(num := s[item.b].num - 1)], w, M.Fall)
    else M.FarEffect(s, w, M.Fall)
  }

  ghost function IntegerMachine(alu: Alu): M.Semantics {
    M.Semantics((item, a, b, c, w) => M.NearEffect(Result(alu, item, a, b, c), b, c, w, M.Fall),
                (item, s: M.Store, w) => Far(item, s, w))
  }

  /** The assumptions on the instructions can be met for every arithmetic. */
  lemma IntegerMachineComputes(alu: Alu)
    ensures Computes(IntegerMachine(alu), alu) && LoopOps(IntegerMachine(alu))
  {
    var sem := IntegerMachine(alu);
    hide SetsNum, Sets, CountsDown;
    forall store: M.Store, w: M.World ensures ComputesAt(sem, alu, store, w) {
      AllArith(alu, store, w);
      AllCompare(alu, store, w);
      hide Three;
      forall r: nat, v: int
        ensures SetsNum(sem, Instr(Other("load"), Reg(Local, r), Int(v), None), r, v, store, w)
      {
        LoadDone(alu, r, v, store, w);
      }
      forall r: nat, x: nat
        ensures SetsNum(sem, Instr(Other("icopy"), Reg(Local, r), Reg(Local, x), None), r, Num(store, x), store, w)
        ensures Sets(sem, Instr(Other("copy"), Reg(Local, r), Reg(Local, x), None), r, store[Reg(Local, x)], store, w)
        ensures SetsNum(sem, Instr(Other("not"), Reg(Local, r), Reg(Local, x), None), r,
                        if Num(store, x) == 0 then 1 else 0, store, w)
      {
        CopyDone(alu, r, x, store, w);
        FullCopyDone(alu, r, x, store, w);
        NotDone(alu, r, x, store, w);
      }
    }
    forall store: M.Store, w: M.World ensures LoopOpsAt(sem, store, w) {
      forall r: nat
        ensures SetsNum(sem, Instr(Other("inc"), Reg(Local, r), None, None), r, Num(store, r) + 1, store, w)
      {
        IncDone(alu, r, store, w);
      }
      forall name: Name, r: nat
        ensures CountsDown(sem, Instr(Other("bcf"), Id(name), Reg(Local, r), None), name, r, store, w)
      {
        CountDone(alu, name, r, store, w);
      }
    }
  }

  lemma LoadDone(alu: Alu, r: nat, v: int, store: M.Store, w: M.World)
    ensures SetsNum(IntegerMachine(alu), Instr(Other("load"), Reg(Local, r), Int(v), None), r, v, store, w)
  {
    hide OpOf;
  }

  lemma CopyDone(alu: Alu, r: nat, x: nat, store: M.Store, w: M.World)
    ensures SetsNum(IntegerMachine(alu), Instr(Other("icopy"), Reg(Local, r), Reg(Local, x), None), r,
                    Num(store, x), store, w)
  {
    hide OpOf;
    assert store[Reg(Local, x) := store[Reg(Local, x)]] == store;
  }

  lemma FullCopyDone(alu: Alu, r: nat, x: nat, store: M.Store, w: M.World)
    ensures Sets(IntegerMachine(alu), Instr(Other("copy"), Reg(Local, r), Reg(Local, x), None), r,
                 store[Reg(Local, x)], store, w)
  {
    hide OpOf;
    assert store[Reg(Local, x) := store[Reg(Local, x)]] == store;
  }

  lemma NotDone(alu: Alu, r: nat, x: nat, store: M.Store, w: M.World)
    ensures SetsNum(IntegerMachine(alu), Instr(Other("not"), Reg(Local, r), Reg(Local, x), None), r,
                    if Num(store, x) == 0 then 1 else 0, store, w)
  {
    hide OpOf;
    assert store[Reg(Local, x) := store[Reg(Local, x)]] == store;
  }

  lemma IncDone(alu: Alu, r: nat, store: M.Store, w: M.World)
    ensures SetsNum(IntegerMachine(alu), Instr(Other("inc"), Reg(Local, r), None, None), r, Num(store, r) + 1, store, w)
  {
    hide OpOf;
  }

  lemma CountDone(alu: Alu, name: Name, r: nat, store: M.Store, w: M.World)
    ensures CountsDown(IntegerMachine(alu), Instr(Other("bcf"), Id(name), Reg(Local, r), None), name, r, store, w)
  {
    hide Result;
  }

  lemma ThreeDone(alu: Alu, name: string, op: BinOp, store: M.Store, w: M.World)
    requires OpOf(name) == Present(op) && name[0] == 'i' && name !in ["inc", "icopy"]
    ensures Three(IntegerMachine(alu), name, alu, op, store, w)
  {
    var sem := IntegerMachine(alu);
    forall r: nat, x: Operand, y: Operand | Integer(x) && Integer(y)
      ensures SetsNum(sem, Instr(Other(name), Reg(Local, r), x, y), r,
                      alu(op, Amount(store, x), Amount(store, y)), store, w)
    {
      hide Result, OpOf;
      ResultIs(alu, name, op, r, x, y, store[Reg(Local, r)], M.Read(store, x), M.Read(store, y));
      ThreeExec(alu, name, r, x, y, store, w);
    }
  }

  lemma ThreeExec(alu: Alu, name: string, r: nat, x: Operand, y: Operand, store: M.Store, w: M.World)
    requires Integer(x) && Integer(y)
    ensures var item := Instr(Other(name), Reg(Local, r), x, y);
      M.Exec(IntegerMachine(alu), item, store, w) == M.Act(
        store[Reg(Local, r) := Result(alu, item, store[Reg(Local, r)], M.Read(store, x), M.Read(store, y))], w, M.Next)
  {
    hide Result;
    var b, c := M.Read(store, x), M.Read(store, y);
    assert M.Put(store, y, c) == store && M.Put(store, x, b) == store;
  }

  lemma ResultIs(alu: Alu, name: string, op: BinOp, r: nat, x: Operand, y: Operand,
                 a: M.Value, b: M.Value, c: M.Value)
    requires OpOf(name) == Present(op) && name[0] == 'i' && name !in ["inc", "icopy"]
    ensures Result(alu, Instr(Other(name), Reg(Local, r), x, y), a, b, c) == a.(num := alu(op, Value(x, b), Value(y, c)))
  {
    hide OpOf;
    assert "inc" in ["inc", "icopy"] && "icopy" in ["inc", "icopy"];
    assert "copy"[0] == 'c' && "load"[0] == 'l' && "not"[0] == 'n';
  }

  lemma AllArith(alu: Alu, store: M.Store, w: M.World)
    ensures var sem := IntegerMachine(alu);
      && Three(sem, "iadd", alu, Add, store, w) && Three(sem, "isub", alu, Sub, store, w)
      && Three(sem, "imult", alu, Mult, store, w) && Three(sem, "idiv", alu, Div, store, w)
      && Three(sem, "imod", alu, Mod, store, w) && Three(sem, "ipow", alu, Pow, store, w)
  {
    hide Three;
    ThreeDone(alu, "iadd", Add, store, w); ThreeDone(alu, "isub", Sub, store, w);
    ThreeDone(alu, "imult", Mult, store, w); ThreeDone(alu, "idiv", Div, store, w);
    ThreeDone(alu, "imod", Mod, store, w); ThreeDone(alu, "ipow", Pow, store, w);
  }

  lemma AllCompare(alu: Alu, store: M.Store, w: M.World)
    ensures var sem := IntegerMachine(alu);
      && Three(sem, "ieq", alu, Eq, store, w) && Three(sem, "ine", alu, Ne, store, w)
      && Three(sem, "igt", alu, Gt, store, w) && Three(sem, "ilt", alu, Lt, store, w)
      && Three(sem, "igte", alu, Gte, store, w) && Three(sem, "ilte", alu, Lte, store, w)
  {
    hide Three;
    ThreeDone(alu, "ieq", Eq, store, w); ThreeDone(alu, "ine", Ne, store, w);
    ThreeDone(alu, "igt", Gt, store, w); ThreeDone(alu, "ilt", Lt, store, w);
    ThreeDone(alu, "igte", Gte, store, w); ThreeDone(alu, "ilte", Lte, store, w);
  }

  /** Whole numbers without bounds; of division and powers only that there are some. */
  function Plain(op: BinOp, x: int, y: int): int {
    match op
    case Add => x + y
    case Sub => x - y
    case Mult => x * y
    case Eq => if x == y then 1 else 0
    case Ne => if x != y then 1 else 0
    case Gt => if x > y then 1 else 0
    case Lt => if x < y then 1 else 0
    case Gte => if x >= y then 1 else 0
    case Lte => if x <= y then 1 else 0
    case _ => 0
  }

  /** All that is asked of arithmetic can be met, too. */
  lemma PlainIs()
    ensures Arithmetic(Plain) && OrderFree(Plain)
  {
    forall op, x: int, y: int | Swappable(op) ensures Plain(op, x, y) == Plain(op, y, x) {
    }
  }
}
