/** A small-step machine for assembler items. Branches, swaps and string
    concatenation behave as in the interpreter; every other instruction is a
    parameter. An instruction that names no label or procedure sees and changes
    only the registers it names, or the one it counts in, and the outside world. */
module Machine {
  import opened Assembly

  /** `cursor` is the cached string position, `rest` all other fields. */
  datatype Value = Value(num: int, bytes: seq<nat>, chars: nat, cursor: nat, rest: nat)

  const Blank := Value(0, [], 0, 0, 0)
  const Space: nat := 32

  type World = seq<int>

  type Store = s: imap<Operand, Value> | forall o: Operand :: o.Reg? ==> o in s
    ghost witness imap o: Operand | o.Reg? :: Blank

  datatype Control = Fall | Jump(operand: nat) | Stop

  datatype NearEffect = NearEffect(a: Value, b: Value, c: Value, world: World, control: Control)
  datatype FarEffect = FarEffect(store: Store, world: World, control: Control)

  datatype Semantics = Semantics(
    near: (Item, Value, Value, Value, World) -> NearEffect,
    far: (Item, Store, World) -> FarEffect)

  datatype Go = Next | To(name: Name) | Halt
  datatype Act = Act(store: Store, world: World, go: Go)

  datatype State =
    | At(pc: nat, store: Store, world: World)
    | Done(world: World, shared: imap<Operand, Value>)
    | Stuck(world: World)

  function Read(store: Store, o: Operand): Value {
    if o.Reg? then store[o] else Blank
  }

  function Put(store: Store, o: Operand, v: Value): Store {
    if o.Reg? then store[o := v] else store
  }

  function Exchanged(store: Store, x: Operand, y: Operand): Store
    requires x.Reg? && y.Reg?
  {
    store[x := store[y]][y := store[x]]
  }

  /** What outlives the procedure: everything but its own registers. */
  ghost function Shared(store: Store): imap<Operand, Value> {
    imap o: Operand | o.Reg? && o.kind != Local :: store[o]
  }

  /* ---- Branches ---- */

  predicate IsBranch(item: Item) {
    && item.Instr? && item.a.Id?
    && match item.op
       case Br => item.b == None && item.c == None
       case Brt => item.b.Reg? && item.c == None
       case Brf => item.b.Reg? && item.c == None
       case Brtf => item.b.Id? && item.c.Reg?
       case _ => false
  }

  function Decide(item: Item, store: Store): Go
    requires IsBranch(item)
  {
    match item.op
    case Br => To(item.a.name)
    case Brt => if store[item.b].num != 0 then To(item.a.name) else Next
    case Brf => if store[item.b].num == 0 then To(item.a.name) else Next
    case Brtf => if store[item.c].num != 0 then To(item.a.name) else To(item.b.name)
    case _ => Halt
  }

  /* ---- Register instructions with a fixed meaning ---- */

  predicate IsData(item: Item) {
    && item.Instr? && item.a.Reg? && item.b.Reg?
    && match item.op
       case Swap => item.c == None
       case Concat => item.c.Reg?
       case Sconcat => item.c.Reg?
       case Append => item.c == None
       case Sappend => item.c == None
       case _ => false
  }

  function Concatenated(x: Value, y: Value, z: Value): Value {
    Value(x.num, y.bytes + z.bytes, y.chars + z.chars, 0, x.rest)
  }

  function Spaced(x: Value, y: Value, z: Value): Value {
    Value(x.num, y.bytes + [Space] + z.bytes, y.chars + z.chars + 1, 0, x.rest)
  }

  /** Appending in place; the interpreter's byte copy presumes two distinct
      values, so what an operand appended to itself does is left to `near`. */
  predicate SelfAppend(item: Item) {
    item.Instr? && (item.op == Append || item.op == Sappend) && item.a == item.b
  }

  function Compute(item: Item, store: Store): Store
    requires IsData(item) && !SelfAppend(item)
  {
    var x, y := store[item.a], store[item.b];
    match item.op
    case Swap => Exchanged(store, item.a, item.b)
    case Concat => Put(store, item.a, Concatenated(x, y, Read(store, item.c)))
    case Sconcat => Put(store, item.a, Spaced(x, y, Read(store, item.c)))
    case Append => Put(store, item.a, Concatenated(x, x, y))
    case Sappend => Put(store, item.a, Spaced(x, x, y))
    case _ => store
  }

  /* ---- All instructions ---- */

  predicate Near(item: Item) {
    && item.Instr? && !item.op.Implicit?
    && !item.a.Id? && !item.b.Id? && !item.c.Id?
    && !item.a.Func? && !item.b.Func? && !item.c.Func?
  }

  /** The first register of an instruction: the one it names first, or the one it
      counts in. */
  function First(item: Item): Operand
    requires item.Instr?
  {
    if item.op.Count? then Reg(Local, item.op.reg) else item.a
  }

  function Resolve(item: Item, control: Control): Go
    requires item.Instr?
  {
    match control
    case Fall => Next
    case Stop => Halt
    case Jump(n) =>
      var o := if n == 0 then item.a else if n == 1 then item.b else item.c;
      if o.Id? then To(o.name) else Halt
  }

  ghost function Exec(sem: Semantics, item: Item, store: Store, world: World): Act
    requires item.Instr?
  {
    if IsBranch(item) then Act(store, world, Decide(item, store))
    else if IsData(item) && !SelfAppend(item) then Act(Compute(item, store), world, Next)
    else if Near(item) then
      var e := sem.near(item, Read(store, First(item)), Read(store, item.b), Read(store, item.c), world);
      Act(Put(Put(Put(store, item.c, e.c), item.b, e.b), First(item), e.a), e.world, Resolve(item, e.control))
    else
      var e := sem.far(item, store, world);
      Act(e.store, e.world, Resolve(item, e.control))
  }

  /** One step; a label is a step that changes nothing but the position. Running
      past the end, which is also where a jump to an undefined label leads, is stuck. */
  ghost function Step(sem: Semantics, code: Code, s: State): State {
    if !s.At? then s
    else if s.pc >= |code| then Stuck(s.world)
    else if code[s.pc].Label? then At(s.pc + 1, s.store, s.world)
    else
      var act := Exec(sem, code[s.pc], s.store, s.world);
      match act.go
      case Next => At(s.pc + 1, act.store, act.world)
      case To(name) => At(Find(code, name), act.store, act.world)
      case Halt => Done(act.world, Shared(act.store))
  }

  ghost function Steps(sem: Semantics, code: Code, n: nat, s: State): State {
    if n == 0 then s else Steps(sem, code, n - 1, Step(sem, code, s))
  }

  lemma {:induction false} StepsAdd(sem: Semantics, code: Code, m: nat, n: nat, s: State)
    ensures Steps(sem, code, m + n, s) == Steps(sem, code, n, Steps(sem, code, m, s))
  {
    if m > 0 { StepsAdd(sem, code, m - 1, n, Step(sem, code, s)); }
  }

  lemma {:induction false} EndStays(sem: Semantics, code: Code, n: nat, s: State)
    requires !s.At?
    ensures Steps(sem, code, n, s) == s
  {
    if n > 0 { EndStays(sem, code, n - 1, s); }
  }

  /* ---- Meaning of whole programs ---- */

  predicate Defines(code: Code, name: Name) { Find(code, name) < |code| }

  ghost predicate Ends(sem: Semantics, code: Code, s: State, end: State) {
    !end.At? && exists n: nat :: Steps(sem, code, n, s) == end
  }

  function WorldOf(s: State): World { s.world }

  /** The run passes through the outside world `w`. */
  ghost predicate Sees(sem: Semantics, code: Code, s: State, w: World) {
    exists n: nat :: WorldOf(Steps(sem, code, n, s)) == w
  }

  /** Started at any label of the first program, both programs end alike or both
      run for ever, and they pass through the same outside worlds. */
  ghost predicate SameMeaning(sem: Semantics, p: Code, q: Code) {
    forall name | Defines(p, name) ::
      Defines(q, name) && SameFrom(sem, p, q, Find(p, name), Find(q, name))
  }

  ghost predicate SameFrom(sem: Semantics, p: Code, q: Code, at: nat, at': nat) {
    forall store: Store, world: World ::
      SameRuns(sem, p, q, At(at, store, world), At(at', store, world))
  }

  ghost predicate SameRuns(sem: Semantics, p: Code, q: Code, s: State, t: State) {
    && (forall end: State :: Ends(sem, p, s, end) <==> Ends(sem, q, t, end))
    && (forall w: World :: Sees(sem, p, s, w) <==> Sees(sem, q, t, w))
  }

  lemma SameMeaningRefl(sem: Semantics, p: Code)
    ensures SameMeaning(sem, p, p)
  {
  }

  /** Optimisations compose. */
  lemma SameMeaningTrans(sem: Semantics, p: Code, q: Code, r: Code)
    requires SameMeaning(sem, p, q) && SameMeaning(sem, q, r)
    ensures SameMeaning(sem, p, r)
  {
    forall name | Defines(p, name)
      ensures Defines(r, name) && SameFrom(sem, p, r, Find(p, name), Find(r, name))
    {
      assert SameFrom(sem, p, q, Find(p, name), Find(q, name));
      assert SameFrom(sem, q, r, Find(q, name), Find(r, name));
      forall store: Store, world: World
        ensures SameRuns(sem, p, r, At(Find(p, name), store, world), At(Find(r, name), store, world))
      {
        assert SameRuns(sem, p, q, At(Find(p, name), store, world), At(Find(q, name), store, world));
        assert SameRuns(sem, q, r, At(Find(q, name), store, world), At(Find(r, name), store, world));
      }
    }
  }
}
