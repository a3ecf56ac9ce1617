/** Building the label table while code is generated, writing the addresses into the
    code, and why threading the labels first does not change what the code does. */
module Backpatch {
  import opened LabelThreading

  /* ---- Generating code ---- */

  class Builder {
    var code: seq<Cell>
    var table: Table
    var names: map<string, nat>

    /** Operand cells are linked to one label each, and names to labels one to one. */
    ghost predicate Valid()
      reads this
    {
      && WellLinked(code, table)
      && (forall name :: name in names ==> names[name] < |table|)
      && (forall n, m :: n in names && m in names && names[n] == names[m] ==> n == m)
      && (forall cell: nat :: cell < |code| && code[cell].Ref? ==> Owner(table, cell).Present?)
    }

    constructor ()
      ensures Valid() && code == [] && table == [] && names == map[]
    {
      code, table, names := [], [], map[];
    }

    /** The entry of a name, made undefined and unused if it is new. */
    method Entry(name: string) returns (a: nat)
      requires Valid()
      modifies this`table, this`names
      ensures Valid() && name in names && names[name] == a
      ensures if name in old(names) then table == old(table) && names == old(names)
        else table == old(table) + [Patch(false, 0, [])] && names == old(names)[name := |old(table)|]
    {
      if name in names { return names[name]; }
      a := |table|;
      ghost var before := table;
      table, names := table + [Patch(false, 0, [])], names[name := |table|];
      forall cell: nat | cell < |code| && code[cell].Ref?
        ensures Owner(table, cell).Present?
      {
        var b := Owner(before, cell).value;
        assert table[b] == before[b];
      }
    }

    /** An instruction cell or an operand cell that is no label. */
    method Emit(cell: Cell)
      requires Valid() && !cell.Ref?
      modifies this`code
      ensures Valid() && code == old(code) + [cell]
    {
      code := code + [cell];
    }

    /** A label operand: its cell is linked to the label of that name, the links of
        all other cells stay. */
    method EmitLabel(name: string)
      requires Valid()
      modifies this
      ensures Valid() && code == old(code) + [Ref(0)]
      ensures name in names && Owner(table, |old(code)|) == Present(names[name])
      ensures forall n :: n in old(names) ==> n in names && names[n] == old(names)[n]
      ensures forall cell: nat :: cell < |old(code)| ==> Owner(table, cell) == old(Owner(table, cell))
      ensures forall a: nat :: a < |table| ==> (if a < |old(table)|
        then table[a].defined == old(table)[a].defined && table[a].index == old(table)[a].index
        else !table[a].defined)
    {
      hide WellLinked, Owner;
      ghost var before := table;
      var a := Entry(name);
      ghost var middle := table;
      Linked(code, before, middle, a);
      table := table[a := table[a].(refs := [|code|] + table[a].refs)];
      code := code + [Ref(0)];
      assert forall n :: n in names ==> names[n] < |table|;
    }

    /** A label definition; a second one for the same name is an error. */
    method DefineLabel(name: string) returns (ok: bool)
      requires Valid()
      modifies this`table, this`names
      ensures Valid() && name in names
      ensures ok == !(name in old(names) && old(table)[old(names)[name]].defined)
      ensures !ok ==> table == old(table) && names == old(names)
      ensures ok ==> table[names[name]].defined && table[names[name]].index == |code|
      ensures forall n :: n in old(names) ==>
        n in names && names[n] == old(names)[n] && (n != name ==> table[names[n]] == old(table)[names[n]])
      ensures forall cell: nat :: cell < |code| ==> Owner(table, cell) == old(Owner(table, cell))
    {
      if name in names && table[names[name]].defined { return false; }
      ghost var before := table;
      var a := Entry(name);
      Redefined(code, before, table, a, |code|);
      table := table[a := table[a].(defined := true, index := |code|)];
      ok := true;
    }
  }

  /** Owners depend on the reference lists only. */
  lemma {:induction false} OwnerByRefs(x: Table, y: Table, cell: nat, a: nat)
    requires a <= |x| <= |y|
    requires forall b :: 0 <= b < |x| ==> (cell in x[b].refs <==> cell in y[b].refs)
    requires forall b :: |x| <= b < |y| ==> cell !in y[b].refs
    ensures OwnerFrom(x, cell, a) == OwnerFrom(y, cell, a)
    decreases |x| - a
  {
    if a < |x| {
      OwnerByRefs(x, y, cell, a + 1);
    } else {
      NoOwner(y, cell, a);
    }
  }

  lemma {:induction false} NoOwner(y: Table, cell: nat, a: nat)
    requires a <= |y| && forall b :: a <= b < |y| ==> cell !in y[b].refs
    ensures OwnerFrom(y, cell, a).Absent?
  {
  }

  lemma Linked(code: seq<Cell>, before: Table, middle: Table, a: nat)
    requires WellLinked(code, before) && WellLinked(code, middle) && a < |middle|
    requires middle == before || middle == before + [Patch(false, 0, [])]
    ensures var after := middle[a := middle[a].(refs := [|code|] + middle[a].refs)];
      && WellLinked(code + [Ref(0)], after)
      && Owner(after, |code|) == Present(a)
      && forall cell: nat :: cell < |code| ==> Owner(after, cell) == Owner(before, cell)
  {
    var after := middle[a := middle[a].(refs := [|code|] + middle[a].refs)];
    NewUnused(code, middle);
    forall b, cell | 0 <= b < |middle| && cell in after[b].refs
      ensures cell in middle[b].refs || (b == a && cell == |code|)
    {
    }
    assert |code| in after[a].refs by { assert after[a].refs[0] == |code|; }
    forall cell: nat | cell < |code| ensures Owner(after, cell) == Owner(before, cell) {
      forall b | 0 <= b < |middle| ensures cell in middle[b].refs <==> cell in after[b].refs {
      }
      OwnerByRefs(before, after, cell, 0);
    }
  }

  lemma NewUnused(code: seq<Cell>, table: Table)
    requires WellLinked(code, table)
    ensures forall b :: 0 <= b < |table| ==> |code| !in table[b].refs
  {
  }

  lemma Redefined(code: seq<Cell>, before: Table, middle: Table, a: nat, at: nat)
    requires WellLinked(code, before) && WellLinked(code, middle) && a < |middle|
    requires middle == before || middle == before + [Patch(false, 0, [])]
    ensures var after := middle[a := middle[a].(defined := true, index := at)];
      && WellLinked(code, after)
      && forall cell: nat :: Owner(after, cell) == Owner(before, cell)
  {
    var after := middle[a := middle[a].(defined := true, index := at)];
    forall cell: nat ensures Owner(after, cell) == Owner(before, cell) {
      OwnerByRefs(before, after, cell, 0);
    }
  }

  /* ---- Writing the addresses ---- */

  /** What each cell holds once the addresses are written. */
  function Final(code: seq<Cell>, table: Table, cell: nat): Cell
    requires cell < |code|
  {
    var a := Owner(table, cell);
    if a.Present? && table[a.value].defined then Ref(table[a.value].index) else code[cell]
  }

  ghost predicate Patched(code: seq<Cell>, table: Table, final: seq<Cell>) {
    |final| == |code| && forall cell :: 0 <= cell < |code| ==> final[cell] == Final(code, table, cell)
  }

  /** Walks the labels, and for each the cells that use it; a used label without a
      definition is an error. */
  method BackpatchLabels(code: seq<Cell>, table: Table, order: seq<nat>)
      returns (final: seq<Cell>, unknown: set<nat>)
    requires WellLinked(code, table) && IsOrder(order, |table|)
    ensures Patched(code, table, final)
    ensures unknown == set a: nat | a < |table| && !table[a].defined && table[a].refs != []
  {
    final, unknown := code, {};
    var k := 0;
    while k < |order|
      invariant k <= |order| && |final| == |code|
      invariant forall cell :: 0 <= cell < |code| ==> final[cell] == After(code, table, order, k, cell)
      invariant unknown == set a: nat | a in order[..k] && !table[a].defined && table[a].refs != []
    {
      var a := order[k];
      assert order[..k + 1] == order[..k] + [a];
      if table[a].defined {
        final := PatchOne(code, table, final, a);
      } else if table[a].refs != [] {
        unknown := unknown + {a};
      }
      k := k + 1;
    }
    assert order[..k] == order;
  }

  lemma OwnerIs(code: seq<Cell>, table: Table, cell: nat, a: nat)
    requires WellLinked(code, table) && a < |table| && cell in table[a].refs
    ensures Owner(table, cell) == Present(a)
  {
    var b := Owner(table, cell).value;
    assert !(b < a) && !(a < b);
  }

  /** What a cell holds after the first k labels of the walk. */
  function After(code: seq<Cell>, table: Table, order: seq<nat>, k: nat, cell: nat): Cell
    requires k <= |order| && cell < |code|
  {
    var a := Owner(table, cell);
    if a.Present? && a.value in order[..k] then Final(code, table, cell) else code[cell]
  }

  /** Writes one label's address into all cells that use it. */
  method PatchOne(code: seq<Cell>, table: Table, cells: seq<Cell>, a: nat) returns (final: seq<Cell>)
    requires WellLinked(code, table) && a < |table| && table[a].defined && |cells| == |code|
    ensures |final| == |code|
    ensures forall cell :: 0 <= cell < |code| ==>
      final[cell] == if Owner(table, cell) == Present(a) then Ref(table[a].index) else cells[cell]
  {
    final := cells;
    var refs := table[a].refs;
    var r := 0;
    while r < |refs|
      invariant r <= |refs| && |final| == |code|
      invariant forall cell :: 0 <= cell < |code| ==>
        final[cell] == if cell in refs[..r] then Ref(table[a].index) else cells[cell]
    {
      assert refs[..r + 1] == refs[..r] + [refs[r]];
      final := final[refs[r] := Ref(table[a].index)];
      r := r + 1;
    }
    assert refs[..r] == refs;
    forall cell: nat | cell in refs ensures Owner(table, cell) == Present(a) {
      OwnerIs(code, table, cell, a);
    }
  }

  /* ---- What the code does ---- */

  type Memory = seq<int>

  /** `Jump` goes where a label operand says, `Go` to an address found in the memory or
      fixed, as a return and a call do; if no instruction starts there the run ends. */
  datatype Control = Fall | Jump(operand: nat) | Go(address: nat) | Halt

  /** The effect of the instruction at a position, branches aside: it sees its own
      operands, label operands apart, and the memory. */
  type Effect = (nat, Memory) -> (Memory, Control)

  datatype State = At(pc: nat, memory: Memory) | Ended(memory: Memory)

  predicate Executes(code: seq<Cell>, s: State) {
    s.At? && s.pc < |code| && code[s.pc].Op?
  }

  function JumpThrough(code: seq<Cell>, cell: nat, memory: Memory): State {
    if cell < |code| && code[cell].Ref? then At(code[cell].index, memory) else Ended(memory)
  }

  function Step(effect: Effect, code: seq<Cell>, s: State): State {
    if !Executes(code, s) then Ended(s.memory)
    else if code[s.pc].isBr then JumpThrough(code, s.pc + 1, s.memory)
    else
      var (memory, control) := effect(s.pc, s.memory);
      match control
      case Fall => At(s.pc + 1 + code[s.pc].operands, memory)
      case Jump(n) => JumpThrough(code, s.pc + n, memory)
      case Go(address) => At(address, memory)
      case Halt => Ended(memory)
  }

  function Steps(effect: Effect, code: seq<Cell>, n: nat, s: State): State
    decreases n
  {
    if n == 0 then s else Steps(effect, code, n - 1, Step(effect, code, s))
  }

  /** What one step does besides going on: nothing for an unconditional branch. */
  function Work(code: seq<Cell>, s: State): seq<(nat, Memory)> {
    if Executes(code, s) && !code[s.pc].isBr then [(s.pc, s.memory)] else []
  }

  /** The instructions executed in n steps, unconditional branches left out. */
  function Trace(effect: Effect, code: seq<Cell>, n: nat, s: State): seq<(nat, Memory)>
    decreases n
  {
    if n == 0 then [] else Work(code, s) + Trace(effect, code, n - 1, Step(effect, code, s))
  }

  lemma {:induction false} RunAdd(effect: Effect, code: seq<Cell>, m: nat, n: nat, s: State)
    ensures Steps(effect, code, m + n, s) == Steps(effect, code, n, Steps(effect, code, m, s))
    ensures Trace(effect, code, m + n, s)
      == Trace(effect, code, m, s) + Trace(effect, code, n, Steps(effect, code, m, s))
    decreases m
  {
    if m > 0 { RunAdd(effect, code, m - 1, n, Step(effect, code, s)); }
  }

  /** Following a chain of branches in the code is all silent. */
  lemma {:induction false} SilentChain(effect: Effect, code: seq<Cell>, table: Table, final: seq<Cell>,
                                       at: nat, n: nat, memory: Memory) returns (m: nat)
    requires WellLinked(code, table) && Patched(code, table, final)
    ensures Steps(effect, final, m, At(at, memory)) == At(Follow(code, table, at, n), memory)
    ensures Trace(effect, final, m, At(at, memory)) == []
    decreases n
  {
    if n == 0 || Hop(code, table, at).Absent? {
      m := 0;
    } else {
      var p := Owner(table, at + 1);
      var next := Hop(code, table, at).value;
      CellIsOp(code, table, final, at);
      assert at + 1 < |code| by { assert at + 1 in table[p.value].refs; }
      assert Step(effect, final, At(at, memory)) == At(next, memory);
      m := SilentChain(effect, code, table, final, next, n - 1, memory);
      m := m + 1;
    }
  }

  lemma CellIsOp(code: seq<Cell>, table: Table, final: seq<Cell>, at: nat)
    requires WellLinked(code, table) && Patched(code, table, final) && at < |code|
    ensures code[at].Op? ==> final[at] == code[at]
    ensures final[at].Op? ==> final[at] == code[at]
  {
    var a := Owner(table, at);
    if a.Present? {
      var k :| 0 <= k < |table[a.value].refs| && table[a.value].refs[k] == at;
      assert code[table[a.value].refs[k]].Ref?;
    }
  }

  /** A jump through the same cell, on to the threaded address. */
  lemma JumpMeets(effect: Effect, code: seq<Cell>, table: Table, now: Table, first: seq<Cell>,
                  second: seq<Cell>, cell: nat, memory: Memory) returns (m: nat)
    requires WellLinked(code, table) && OnChain(code, table, now)
    requires Patched(code, table, first) && Patched(code, now, second)
    ensures Steps(effect, first, m, JumpThrough(first, cell, memory)) == JumpThrough(second, cell, memory)
    ensures Trace(effect, first, m, JumpThrough(first, cell, memory)) == []
  {
    OwnerSame(now, table, cell, 0);
    m := 0;
    var a := Owner(table, cell);
    if cell < |code| && a.Present? && table[a.value].defined {
      var n: nat :| Follow(code, table, table[a.value].index, n) == now[a.value].index;
      m := SilentChain(effect, code, table, first, table[a.value].index, n, memory);
    }
  }

  /** Both versions have the same instruction at a position. */
  lemma SameWorkHere(code: seq<Cell>, table: Table, now: Table, first: seq<Cell>, second: seq<Cell>, s: State)
    requires WellLinked(code, table) && OnChain(code, table, now)
    requires Patched(code, table, first) && Patched(code, now, second)
    ensures Executes(first, s) == Executes(second, s) && Work(first, s) == Work(second, s)
    ensures Executes(first, s) ==> first[s.pc] == second[s.pc]
  {
    if s.At? && s.pc < |code| {
      CellIsOp(code, table, first, s.pc);
      LinksKept(code, table, now);
      CellIsOp(code, now, second, s.pc);
      hide WellLinked, Patched;
    }
  }

  /** One step of both versions, and silent steps of the unthreaded one after it. */
  lemma FirstSteps(effect: Effect, code: seq<Cell>, table: Table, now: Table, first: seq<Cell>,
                   second: seq<Cell>, s: State) returns (k: nat)
    requires WellLinked(code, table) && OnChain(code, table, now)
    requires Patched(code, table, first) && Patched(code, now, second)
    requires Executes(first, s) && Executes(second, s) && first[s.pc] == second[s.pc]
    ensures Steps(effect, first, k, Step(effect, first, s)) == Step(effect, second, s)
    ensures Trace(effect, first, k, Step(effect, first, s)) == []
  {
    hide WellLinked, OnChain, Patched, JumpThrough;
    var (memory, control) := effect(s.pc, s.memory);
    k := 0;
    if first[s.pc].isBr {
      k := JumpMeets(effect, code, table, now, first, second, s.pc + 1, s.memory);
    } else if control.Jump? {
      k := JumpMeets(effect, code, table, now, first, second, s.pc + control.operand, memory);
    }
  }

  /** One step of the threaded code is one or more of the unthreaded, with the same work. */
  lemma StepMeets(effect: Effect, code: seq<Cell>, table: Table, now: Table, first: seq<Cell>,
                  second: seq<Cell>, s: State) returns (m: nat)
    requires WellLinked(code, table) && OnChain(code, table, now)
    requires Patched(code, table, first) && Patched(code, now, second)
    ensures m > 0 && Steps(effect, first, m, s) == Step(effect, second, s)
    ensures Trace(effect, first, m, s) == Work(second, s)
  {
    SameWorkHere(code, table, now, first, second, s);
    hide WellLinked, OnChain, Patched;
    m := 1;
    if Executes(first, s) {
      var k := FirstSteps(effect, code, table, now, first, second, s);
      hide Step, Work;
      m := k + 1;
    } else {
      assert Steps(effect, first, 1, s) == Steps(effect, first, 0, Step(effect, first, s));
      assert Trace(effect, first, 1, s) == Work(first, s) + Trace(effect, first, 0, Step(effect, first, s));
    }
  }

  /** After n steps of the threaded code the unthreaded has come to the same state,
      with the same work done. */
  lemma {:induction false} RunMeets(effect: Effect, code: seq<Cell>, table: Table, now: Table,
                                    first: seq<Cell>, second: seq<Cell>, s: State, n: nat) returns (m: nat)
    requires WellLinked(code, table) && OnChain(code, table, now)
    requires Patched(code, table, first) && Patched(code, now, second)
    ensures m >= n && Steps(effect, first, m, s) == Steps(effect, second, n, s)
    ensures Trace(effect, first, m, s) == Trace(effect, second, n, s)
    decreases n
  {
    hide WellLinked, OnChain, Patched, Step, Work;
    if n == 0 {
      m := 0;
    } else {
      var a := StepMeets(effect, code, table, now, first, second, s);
      var b := RunMeets(effect, code, table, now, first, second, Step(effect, second, s), n - 1);
      RunAdd(effect, first, a, b, s);
      m := a + b;
    }
  }

  /** A run passes through every beginning of its trace. */
  lemma {:induction false} TraceGrows(effect: Effect, code: seq<Cell>, n: nat, s: State, length: nat)
      returns (m: nat)
    requires length <= |Trace(effect, code, n, s)|
    ensures m <= n && Trace(effect, code, m, s) == Trace(effect, code, n, s)[..length]
    decreases n
  {
    if length == 0 {
      m := 0;
    } else {
      var w := Work(code, s);
      m := TraceGrows(effect, code, n - 1, Step(effect, code, s), length - |w|);
      m := m + 1;
    }
  }

  /** Both codes do the same work in the same order from every position, and end
      alike. */
  ghost predicate SameWork(effect: Effect, first: seq<Cell>, second: seq<Cell>) {
    && (forall s: State, n: nat :: Reached(effect, second, s, Trace(effect, first, n, s)))
    && (forall s: State, n: nat :: Reached(effect, first, s, Trace(effect, second, n, s)))
    && (forall s: State, memory: Memory ::
          EndsIn(effect, first, s, memory) <==> EndsIn(effect, second, s, memory))
  }

  ghost predicate Reached(effect: Effect, code: seq<Cell>, s: State, work: seq<(nat, Memory)>) {
    exists n: nat :: Trace(effect, code, n, s) == work
  }

  ghost predicate EndsIn(effect: Effect, code: seq<Cell>, s: State, memory: Memory) {
    exists n: nat :: Steps(effect, code, n, s) == Ended(memory)
  }

  lemma {:induction false} EndedStays(effect: Effect, code: seq<Cell>, n: nat, s: State)
    requires s.Ended?
    ensures Steps(effect, code, n, s) == s
    decreases n
  {
    if n > 0 { EndedStays(effect, code, n - 1, s); }
  }

  lemma SecondReaches(effect: Effect, code: seq<Cell>, table: Table, now: Table,
                      first: seq<Cell>, second: seq<Cell>, s: State, n: nat)
    requires WellLinked(code, table) && OnChain(code, table, now)
    requires Patched(code, table, first) && Patched(code, now, second)
    ensures Reached(effect, second, s, Trace(effect, first, n, s))
  {
    hide WellLinked, OnChain, Patched, Trace, Steps;
    var m := RunMeets(effect, code, table, now, first, second, s, n);
    RunAdd(effect, first, n, m - n, s);
    var x, y := Trace(effect, first, n, s), Trace(effect, second, n, s);
    assert y[..|x|] == x;
    var k := TraceGrows(effect, second, n, s, |x|);
  }

  lemma FirstReaches(effect: Effect, code: seq<Cell>, table: Table, now: Table,
                     first: seq<Cell>, second: seq<Cell>, s: State, n: nat)
    requires WellLinked(code, table) && OnChain(code, table, now)
    requires Patched(code, table, first) && Patched(code, now, second)
    ensures Reached(effect, first, s, Trace(effect, second, n, s))
  {
    hide WellLinked, OnChain, Patched, Trace, Steps;
    var m := RunMeets(effect, code, table, now, first, second, s, n);
  }

  lemma EndsMeet(effect: Effect, code: seq<Cell>, table: Table, now: Table,
                 first: seq<Cell>, second: seq<Cell>, s: State, memory: Memory)
    requires WellLinked(code, table) && OnChain(code, table, now)
    requires Patched(code, table, first) && Patched(code, now, second)
    ensures EndsIn(effect, first, s, memory) <==> EndsIn(effect, second, s, memory)
  {
    hide WellLinked, OnChain, Patched, Trace, Steps;
    if EndsIn(effect, first, s, memory) {
      var n: nat :| Steps(effect, first, n, s) == Ended(memory);
      var m := RunMeets(effect, code, table, now, first, second, s, n);
      RunAdd(effect, first, n, m - n, s);
      EndedStays(effect, first, m - n, Ended(memory));
    }
    if EndsIn(effect, second, s, memory) {
      var n: nat :| Steps(effect, second, n, s) == Ended(memory);
      var m := RunMeets(effect, code, table, now, first, second, s, n);
    }
  }

  /** Threading the labels before writing the addresses keeps what the code does,
      branches left out, from every starting position. */
  lemma ThreadingKeepsWork(effect: Effect, code: seq<Cell>, table: Table, now: Table,
                           first: seq<Cell>, second: seq<Cell>)
    requires WellLinked(code, table) && OnChain(code, table, now)
    requires Patched(code, table, first) && Patched(code, now, second)
    ensures SameWork(effect, first, second)
  {
    hide WellLinked, OnChain, Patched, Trace, Steps, Reached, EndsIn;
    forall s: State, n: nat
      ensures Reached(effect, second, s, Trace(effect, first, n, s))
      ensures Reached(effect, first, s, Trace(effect, second, n, s))
    {
      SecondReaches(effect, code, table, now, first, second, s, n);
      FirstReaches(effect, code, table, now, first, second, s, n);
    }
    forall s: State, memory: Memory
      ensures EndsIn(effect, first, s, memory) <==> EndsIn(effect, second, s, memory)
    {
      EndsMeet(effect, code, table, now, first, second, s, memory);
    }
  }

  /** Every label operand holds the end of its label's chain, or the label's own address if
      the label stands at a branch to itself; all other cells are as they were. */
  ghost predicate CellsThreaded(code: seq<Cell>, table: Table, final: seq<Cell>) {
    |final| == |code| && forall cell: nat :: cell < |code| ==>
      var a := Owner(table, cell);
      if a.Absent? || !table[a.value].defined then final[cell] == code[cell]
      else final[cell].Ref? && CellAddress(code, table, table[a.value].index, final[cell].index)
  }

  ghost predicate CellAddress(code: seq<Cell>, table: Table, from: nat, to: nat) {
    if Ends(code, table, from) then EndOf(code, table, from, to) else to == from
  }

  lemma ThreadedPatched(code: seq<Cell>, table: Table, now: Table, final: seq<Cell>)
    requires Threaded(code, table, now) && Patched(code, now, final)
    ensures CellsThreaded(code, table, final)
  {
    hide Ends, Leads, Hop;
    forall cell: nat | cell < |code| ensures Owner(now, cell) == Owner(table, cell) {
      OwnerSame(now, table, cell, 0);
    }
  }

  /** Threading if it is wanted, then writing the addresses. */
  method Backpatch(code: seq<Cell>, table: Table, order: seq<nat>, optimise: bool)
      returns (final: seq<Cell>, unknown: set<nat>)
    requires IsOrder(order, |table|) && WellLinked(code, table)
    requires optimise ==> NoCycle(code, table)
    ensures forall plain :: Patched(code, table, plain) ==>
      forall effect :: SameWork(effect, plain, final)
    ensures if optimise then CellsThreaded(code, table, final) else Patched(code, table, final)
    ensures unknown == set a: nat | a < |table| && !table[a].defined && table[a].refs != []
  {
    var now := table;
    if optimise {
      now := OptimiseLabels(code, table, order);
    } else {
      Untouched(code, table);
    }
    LinksKept(code, table, now);
    final, unknown := BackpatchLabels(code, now, order);
    if optimise { ThreadedPatched(code, table, now, final); }
    forall plain | Patched(code, table, plain) ensures forall effect :: SameWork(effect, plain, final) {
      forall effect { ThreadingKeepsWork(effect, code, table, now, plain, final); }
    }
  }

  lemma Untouched(code: seq<Cell>, table: Table)
    ensures OnChain(code, table, table)
  {
    forall b | 0 <= b < |table| ensures Leads(code, table, table[b].index, table[b].index) {
      LeadsNext(code, table, table[b].index);
    }
  }
}
