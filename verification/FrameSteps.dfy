/** What each instruction of the interpreter does to frames and slots, and what a call has
    done once it has returned. */
module FrameSteps {
  import opened FrameValues

  /** The instruction finds all registers it names, and follows no null pointer. A result
      nobody wants is not looked at, unless it ends the program. */
  predicate CanRun(s: State, i: Instruction)
    requires s.frames != []
  {
    var slots := Top(s).slots;
    match i
    case Call(_) => true
    case CallTo(reg, _) => reg < |slots|
    case CallWith(reg, _, argument, count) => reg < |slots| && argument + count < |slots| && slots[argument].Val?
    case Ret => true
    case RetReg(reg) => reg < |slots| && (slots[reg].Val? || (|s.frames| > 1 && Top(s).returnReg.None?))
    case RetConstant => true
    case Swap(a, b) => a < |slots| && b < |slots|
    case Move(a, b) => a < |slots| && b < |slots|
    case Use(reg) => reg < |slots| && slots[reg].Val?
  }

  lemma RunsExact(s: State, i: Instruction)
    requires Valid(s) && Allowed(s, i) && s.frames != []
    ensures Running(Step(s, i)) <==> CanRun(s, i)
    ensures Step(s, i).Ended? <==> CanRun(s, i) && |s.frames| == 1 && (i.Ret? || i.RetReg? || i.RetConstant?)
  {
    StepValid(s, i);
    hide Valid, Follows, FreedRight, FreeSlots, Enter, EnterPlain, Allowed;
  }

  /* ---- Slots ---- */

  /** A frame that differs in this slot at most. */
  predicate But(x: Frame, y: Frame, reg: nat) {
    && x.id == y.id && x.returnReg == y.returnReg && |x.slots| == |y.slots|
    && forall i :: 0 <= i < |x.slots| && i != reg ==> y.slots[i] == x.slots[i]
  }

  /** A value that was never there before, owned by the frame. */
  predicate Fresh(s: State, t: State, slot: Slot, id: nat) {
    && slot.Val? && slot.value !in s.owner && s.nextValue <= slot.value
    && slot.value in t.owner && t.owner[slot.value] == OfFrame(id)
  }

  /** Freed are the frame's own values in these slots; all other values keep their owner. */
  ghost predicate Frees(s: State, t: State, freed: seq<nat>, id: nat, slots: seq<Slot>) {
    && (forall v: nat :: v in freed <==> Own(s.owner, id, slots, v))
    && (forall v: nat :: v in freed ==> v !in t.owner)
    && (forall v: nat :: v in s.owner && v !in freed ==> v in t.owner && t.owner[v] == s.owner[v])
  }

  /** A new frame: locals with values of their own, then the module's globals. */
  ghost predicate Entered(s: State, t: State, p: Procedure, returnReg: Option<nat>) {
    && |t.frames| == |s.frames| + 1
    && var c := Top(t);
    && c.returnReg == returnReg && (forall k :: 0 <= k < |s.frames| ==> s.frames[k].id != c.id)
    && |c.slots| > p.locals + |p.globals|
    && (forall k :: 0 <= k < p.locals ==> Fresh(s, t, c.slots[k], c.id))
    && (forall k :: p.locals <= k < p.locals + |p.globals| ==> c.slots[k] == Val(p.globals[k - p.locals]))
  }

  lemma EnterIs(s: State, p: Procedure, arguments: seq<Slot>, returnReg: Option<nat>)
    requires Valid(s) && arguments != []
    ensures var t := Enter(s, p, arguments, returnReg);
      && Entered(s, t, p, returnReg) && t.frames[..|s.frames|] == s.frames
      && |Top(t).slots| == p.locals + |p.globals| + |arguments|
      && Top(t).slots[p.locals + |p.globals|..] == arguments
      && (forall v: nat :: v in s.owner ==> v in t.owner && t.owner[v] == s.owner[v])
      && (forall v: nat :: v in t.owner ==> v in s.owner || s.nextValue <= v)
  {
    var t := Enter(s, p, arguments, returnReg);
    var own := OwnSlots(s.nextValue, p);
    assert Top(t).slots == own + arguments && |own| == p.locals + |p.globals|;
    forall k | 0 <= k < |s.frames| ensures s.frames[k].id != Top(t).id {
      assert FrameOk(s, s.frames[k]);
    }
    assert forall k :: 0 <= k < p.locals ==> Top(t).slots[k] == own[k] == Val(s.nextValue + k);
    assert forall k :: p.locals <= k < |own| ==> Top(t).slots[k] == own[k] == Val(p.globals[k - p.locals]);
  }

  /** Without arguments the callee's only argument slot is a new value of its own. */
  lemma PlainIs(s: State, p: Procedure, returnReg: Option<nat>)
    requires Valid(s)
    ensures var t := EnterPlain(s, p, returnReg);
      && Entered(s, t, p, returnReg) && t.frames[..|s.frames|] == s.frames
      && |Top(t).slots| == p.locals + |p.globals| + 1
      && Fresh(s, t, Top(t).slots[p.locals + |p.globals|], Top(t).id)
      && (forall v: nat :: v in s.owner ==> v in t.owner && t.owner[v] == s.owner[v])
      && (forall v: nat :: v in t.owner ==> v in s.owner || s.nextValue <= v)
  {
    var u := NewValue(s, s.nextFrame);
    NewValueValid(s, s.nextFrame);
    EnterIs(u, p, [Val(s.nextValue)], returnReg);
  }

  /** A register is cleared: it is null, and what the frame owned in it is freed. */
  lemma EmptiedIs(s: State, reg: nat)
    requires Valid(s) && s.frames != [] && reg < |Top(s).slots|
    ensures var f := FreeSlots(s.owner, Top(s).id, [Top(s).slots[reg]]);
      && f.Some?
      && var t := Emptied(s, reg, f.value.owner);
      && |t.frames| == |s.frames| && t.nextValue == s.nextValue
      && t.frames[..|s.frames| - 1] == s.frames[..|s.frames| - 1]
      && But(Top(s), Top(t), reg) && Top(t).slots[reg] == Null
      && Frees(s, t, f.value.freed, Top(s).id, [Top(s).slots[reg]])
      && (forall v: nat :: v in t.owner ==> v in s.owner)
  {
    SlotAllocated(s, reg);
    FreeSlotsExact(s.owner, Top(s).id, [Top(s).slots[reg]]);
  }

  /* ---- Calls ---- */

  /** A new frame on top of the others, which stay. */
  lemma CallStep(s: State, p: Procedure)
    requires Valid(s) && GlobalsOk(s, p) && s.frames != []
    ensures var (r, first) := (Step(s, Call(p)), p.locals + |p.globals|);
      && r.Next? && var t := r.state;
      && Entered(s, t, p, None) && t.frames[..|s.frames|] == s.frames
      && |Top(t).slots| == first + 1 && Fresh(s, t, Top(t).slots[first], Top(t).id)
      && Frees(s, t, r.freed, Top(s).id, [])
  {
    PlainIs(s, p, None);
    hide EnterPlain;
  }

  /** The caller's result register is cleared before. */
  lemma CallToStep(s: State, reg: nat, p: Procedure)
    requires Valid(s) && GlobalsOk(s, p) && s.frames != [] && reg < |Top(s).slots|
    ensures var (r, n, first) := (Step(s, CallTo(reg, p)), |s.frames|, p.locals + |p.globals|);
      && r.Next? && var t := r.state;
      && Entered(s, t, p, Some(reg)) && t.frames[..n - 1] == s.frames[..n - 1]
      && But(Top(s), t.frames[n - 1], reg) && t.frames[n - 1].slots[reg] == Null
      && |Top(t).slots| == first + 1 && Fresh(s, t, Top(t).slots[first], Top(t).id)
      && Frees(s, t, r.freed, Top(s).id, [Top(s).slots[reg]])
  {
    hide Valid, EnterPlain, FreeSlots, Emptied, Follows, FreedRight, But, Entered, Fresh, Frees, GlobalsOk;
    ClearValid(s, reg);
    EmptiedIs(s, reg);
    var f := FreeSlots(s.owner, Top(s).id, [Top(s).slots[reg]]).value;
    var u := Emptied(s, reg, f.owner);
    Cleared(s, u, p);
    PlainIs(u, p, Some(reg));
    EnteredAfter(s, u, EnterPlain(u, p, Some(reg)), p, reg, f.freed);
  }

  lemma EnteredAfter(s: State, u: State, t: State, p: Procedure, reg: nat, freed: seq<nat>)
    requires Valid(s) && s.frames != [] && reg < |Top(s).slots|
    requires |u.frames| == |s.frames| && u.nextValue == s.nextValue
    requires u.frames[..|s.frames| - 1] == s.frames[..|s.frames| - 1] && But(Top(s), Top(u), reg)
    requires Frees(s, u, freed, Top(s).id, [Top(s).slots[reg]]) && (forall v: nat :: v in u.owner ==> v in s.owner)
    requires Entered(u, t, p, Some(reg)) && t.frames[..|u.frames|] == u.frames
    requires |Top(t).slots| == p.locals + |p.globals| + 1
    requires Fresh(u, t, Top(t).slots[p.locals + |p.globals|], Top(t).id)
    requires forall v: nat :: v in u.owner ==> v in t.owner && t.owner[v] == u.owner[v]
    requires forall v: nat :: v in t.owner ==> v in u.owner || u.nextValue <= v
    ensures Entered(s, t, p, Some(reg)) && Frees(s, t, freed, Top(s).id, [Top(s).slots[reg]])
    ensures t.frames[..|s.frames| - 1] == s.frames[..|s.frames| - 1] && t.frames[|s.frames| - 1] == Top(u)
    ensures Fresh(s, t, Top(t).slots[p.locals + |p.globals|], Top(t).id)
  {
    var n := |s.frames|;
    assert forall k :: 0 <= k < n ==> t.frames[k] == t.frames[..n][k] == u.frames[k];
    forall k | 0 <= k < n ensures s.frames[k].id == t.frames[k].id {
      if k < n - 1 { assert u.frames[..n - 1][k] == s.frames[..n - 1][k]; }
    }
  }

  /** The callee's argument slots are the caller's, from the register that holds their
      number on; the caller's slots stay. */
  lemma CallWithStep(s: State, reg: nat, p: Procedure, argument: nat, count: nat)
    requires Valid(s) && GlobalsOk(s, p) && s.frames != []
    requires CanRun(s, CallWith(reg, p, argument, count))
    ensures var (r, first) := (Step(s, CallWith(reg, p, argument, count)), p.locals + |p.globals|);
      && r.Next? && var t := r.state;
      && Entered(s, t, p, Some(reg)) && t.frames[..|s.frames|] == s.frames
      && Top(t).slots[first..] == Top(s).slots[argument..argument + count + 1]
      && Frees(s, t, r.freed, Top(s).id, [])
  {
    SlotAllocated(s, argument);
    EnterIs(s, p, Top(s).slots[argument..argument + count + 1], Some(reg));
    hide Enter, Valid;
  }

  /* ---- Returns ---- */

  /** The caller is on top again; but for the result slot it is as before. */
  ghost predicate Returned(s: State, t: State)
    requires |s.frames| > 1
  {
    var n := |s.frames|;
    && |t.frames| == n - 1 && t.frames[..n - 2] == s.frames[..n - 2]
    && (match Top(s).returnReg
        case None => t.frames[n - 2] == s.frames[n - 2]
        case Some(reg) => But(s.frames[n - 2], t.frames[n - 2], reg))
  }

  /** The value that is handed over: the register's, if it is the callee's own. */
  function Adopted(s: State, i: Instruction): Option<Slot>
    requires s.frames != []
  {
    if i.RetReg? && i.reg < |Top(s).slots| && Own(s.owner, Top(s).id, [Top(s).slots[i.reg]], Value(Top(s).slots[i.reg]))
    then Some(Top(s).slots[i.reg])
    else None
  }

  function Value(slot: Slot): nat { if slot.Val? then slot.value else 0 }

  /** The result is the value handed over, which now belongs to the caller, or a new one. */
  ghost predicate ResultIs(s: State, t: State, slot: Slot, adopted: Option<Slot>)
    requires |s.frames| > 1
  {
    var caller := s.frames[|s.frames| - 2].id;
    match adopted
    case None => Fresh(s, t, slot, caller)
    case Some(own) => slot == own && Value(own) in t.owner && t.owner[Value(own)] == OfFrame(caller)
  }

  /** What leaving frees: all that the frame owns, but for a value that is handed over. */
  ghost predicate Left(s: State, t: State, freed: seq<nat>, kept: Option<Slot>)
    requires s.frames != []
  {
    && (forall v: nat :: v in freed <==> Own(s.owner, Top(s).id, Top(s).slots, v) && kept != Some(Val(v)))
    && (forall v: nat :: v in freed ==> v !in t.owner)
    && (forall v: nat :: v in s.owner && v !in freed && kept != Some(Val(v)) ==> v in t.owner && t.owner[v] == s.owner[v])
  }

  lemma LeaveIs(s: State)
    requires Valid(s) && s.frames != []
    ensures var r := Leave(s);
      && Running(r) && r.state.frames == s.frames[..|s.frames| - 1] && Left(s, r.state, r.freed, None)
      && forall v: nat :: v in r.state.owner ==> v in s.owner
  {
    TopOnce(s);
    FreeSlotsExact(s.owner, Top(s).id, Top(s).slots);
  }

  /** Without a result, or one that nobody wants, the frames below stay. */
  lemma PlainReturn(s: State, i: Instruction)
    requires Valid(s) && |s.frames| > 1 && CanRun(s, i)
    requires i.Ret? || ((i.RetReg? || i.RetConstant?) && Top(s).returnReg.None?)
    ensures var r := Step(s, i);
      r.Next? && r.state.frames == s.frames[..|s.frames| - 1] && Left(s, r.state, r.freed, None)
  {
    hide Leave, Valid;
    LeaveIs(s);
    LeaveValid(s);
  }

  /** With a result that is wanted: the caller's other slots stay, and the result slot
      holds the callee's own value, which the caller owns now, or a new value of the
      caller's. The callee's other values are freed. */
  lemma ResultReturn(s: State, i: Instruction)
    requires Valid(s) && |s.frames| > 1 && CanRun(s, i)
    requires (i.RetReg? || i.RetConstant?) && Top(s).returnReg.Some?
    ensures var (r, n, reg) := (Step(s, i), |s.frames|, Top(s).returnReg.value);
      && r.Next? && var t := r.state;
      && Returned(s, t) && reg < |t.frames[n - 2].slots|
      && ResultIs(s, t, t.frames[n - 2].slots[reg], Adopted(s, i)) && Left(s, t, r.freed, Adopted(s, i))
  {
    hide Leave, HandOver, SetSlot, Valid, FrameOk, SlotOk, Left, Handed, ResultIs, Own, Returned;
    ReturnWanted(s);
    if i.RetConstant? {
      var k := |s.frames| - 2;
      var u := SetSlot(NewValue(s, s.frames[k].id), k, Top(s).returnReg.value, Val(s.nextValue));
      NewResultValid(s);
      NewIs(s);
      HandedThenLeft(s, u, None);
    } else {
      var v := Top(s).slots[i.reg].value;
      SlotAllocated(s, i.reg);
      HandOverValid(s, i.reg);
      HandOverIs(s, i.reg);
      HandedThenLeft(s, HandOver(s, v), Adopted(s, i));
    }
  }

  lemma ReturnWanted(s: State)
    requires Valid(s) && |s.frames| > 1 && Top(s).returnReg.Some?
    ensures HasReturnOk(s)
  {
  }

  /** The result has been put into the caller's slot, and the callee is still there. */
  ghost predicate Handed(s: State, u: State, adopted: Option<Slot>)
    requires HasReturnOk(s)
  {
    var (n, reg) := (|s.frames|, Top(s).returnReg.value);
    && |u.frames| == n && u.frames[n - 1] == s.frames[n - 1] && u.frames[..n - 2] == s.frames[..n - 2]
    && But(s.frames[n - 2], u.frames[n - 2], reg) && ResultIs(s, u, u.frames[n - 2].slots[reg], adopted)
    && (forall v: nat :: v in s.owner && adopted != Some(Val(v)) ==> v in u.owner && u.owner[v] == s.owner[v])
    && (forall v: nat :: v in u.owner && v !in s.owner ==>
          u.frames[n - 2].slots[reg] == Val(v) && u.owner[v] != OfFrame(Top(s).id))
  }

  lemma NewIs(s: State)
    requires Valid(s) && HasReturnOk(s)
    ensures var k := |s.frames| - 2;
      Handed(s, SetSlot(NewValue(s, s.frames[k].id), k, Top(s).returnReg.value, Val(s.nextValue)), None)
  {
    assert s.frames[|s.frames| - 2].id < Top(s).id;
  }

  lemma HandOverIs(s: State, reg: nat)
    requires Valid(s) && HasReturnOk(s) && reg < |Top(s).slots| && Top(s).slots[reg].Val?
    requires Top(s).slots[reg].value in s.owner
    ensures Handed(s, HandOver(s, Top(s).slots[reg].value), Adopted(s, RetReg(reg)))
  {
    assert s.frames[|s.frames| - 2].id < Top(s).id;
    if Adopted(s, RetReg(reg)).None? {
      assert Top(s).slots[reg] in [Top(s).slots[reg]];
      NewIs(s);
    }
  }

  /** Then the callee leaves, which does not touch the result. */
  lemma HandedThenLeft(s: State, u: State, adopted: Option<Slot>)
    requires Valid(s) && Valid(u) && HasReturnOk(s) && Handed(s, u, adopted)
    ensures var (r, n, reg) := (Leave(u), |s.frames|, Top(s).returnReg.value);
      && r.Next? && var t := r.state;
      && Returned(s, t) && reg < |t.frames[n - 2].slots|
      && ResultIs(s, t, t.frames[n - 2].slots[reg], adopted) && Left(s, t, r.freed, adopted)
  {
    hide Leave;
    assert s.frames[|s.frames| - 2].id < Top(s).id;
    LeaveIs(u);
    LeaveValid(u);
  }

  /* ---- Registers ---- */

  /** Only the running frame's slots change. */
  ghost predicate OnTop(s: State, t: State)
    requires s.frames != []
  {
    var n := |s.frames|;
    && |t.frames| == n && t.frames[..n - 1] == s.frames[..n - 1]
    && Top(t).(slots := Top(s).slots) == Top(s) && |Top(t).slots| == |Top(s).slots|
  }

  /** Two slots change places. */
  lemma SwapStep(s: State, a: nat, b: nat)
    requires s.frames != [] && CanRun(s, Swap(a, b))
    ensures var (r, x) := (Step(s, Swap(a, b)), Top(s).slots);
      && r.Next? && r.freed == [] && r.state.owner == s.owner && OnTop(s, r.state)
      && var y := Top(r.state).slots;
      && y[a] == x[b] && y[b] == x[a] && forall i :: 0 <= i < |x| && i != a && i != b ==> y[i] == x[i]
  {
  }

  /** The first register has what the second one had, which is null then; what the frame
      owned in the first one is freed. */
  lemma MoveStep(s: State, a: nat, b: nat)
    requires Valid(s) && s.frames != [] && CanRun(s, Move(a, b))
    ensures var (r, x) := (Step(s, Move(a, b)), Top(s).slots);
      && r.Next? && Frees(s, r.state, r.freed, Top(s).id, [x[a]]) && OnTop(s, r.state)
      && var y := Top(r.state).slots;
      && (a != b ==> y[a] == x[b]) && y[b] == Null && forall i :: 0 <= i < |x| && i != a && i != b ==> y[i] == x[i]
  {
    hide FreeSlots;
    SlotAllocated(s, a);
    FreeSlotsExact(s.owner, Top(s).id, [Top(s).slots[a]]);
  }

  lemma UseStep(s: State, reg: nat)
    requires Valid(s) && s.frames != [] && CanRun(s, Use(reg))
    ensures Step(s, Use(reg)) == Next(s, [])
  {
    SlotAllocated(s, reg);
  }

  /* ---- From a call to its return ---- */

  /** The run goes on for the whole code and does not come down to n frames. */
  predicate Above(s: State, code: seq<Instruction>, n: nat)
    decreases |code|
  {
    |s.frames| > n && (code != [] ==> Step(s, code[0]).Next? && Above(Step(s, code[0]).state, code[1..], n))
  }

  /** The frames below stay; the one at n stays the frame it is. */
  ghost predicate Below(s: State, t: State, n: nat) {
    && |s.frames| > n && |t.frames| > n && t.frames[..n] == s.frames[..n]
    && t.frames[n].id == s.frames[n].id && t.frames[n].returnReg == s.frames[n].returnReg
  }

  lemma StepBelow(s: State, i: Instruction, n: nat)
    requires Valid(s) && Allowed(s, i) && |s.frames| > n && Step(s, i).Next? && |Step(s, i).state.frames| > n
    ensures Below(s, Step(s, i).state, n)
  {
    hide Step, Valid, Entered, Frees, Left, ResultIs, GlobalsOk, Fresh, Own;
    RunsExact(s, i);
    match i
    case Call(p) => CallStep(s, p);
    case CallTo(reg, p) => CallToStep(s, reg, p);
    case CallWith(reg, p, argument, count) => CallWithStep(s, reg, p, argument, count);
    case Swap(a, b) => SwapStep(s, a, b);
    case Move(a, b) => MoveStep(s, a, b);
    case Use(reg) => UseStep(s, reg);
    case Ret => PlainReturn(s, i);
    case _ => if Top(s).returnReg.None? { PlainReturn(s, i); } else { ResultReturn(s, i); }
  }

  lemma {:induction false} RunBelow(s: State, code: seq<Instruction>, n: nat)
    requires Valid(s) && AllAllowed(s, code) && Above(s, code, n)
    ensures var r := Run(s, code); r.Next? && Below(s, r.state, n) && Follows(s, r.state)
    decreases |code|
  {
    hide Step, Valid, Below;
    if code == [] {
      Unchanged(s);
      BelowSelf(s, n);
    } else {
      var t := Step(s, code[0]).state;
      assert Allowed(s, code[0]);
      StepValid(s, code[0]);
      StepBelow(s, code[0], n);
      AllowedLater(s, t, code);
      assert forall k :: 0 <= k < |code[1..]| ==> code[1..][k] == code[k + 1];
      RunBelow(t, code[1..], n);
      BelowTrans(s, t, Run(s, code).state, n);
    }
  }

  lemma BelowSelf(s: State, n: nat)
    requires |s.frames| > n
    ensures Below(s, s, n)
  {
  }

  lemma BelowTrans(s: State, t: State, u: State, n: nat)
    requires Below(s, t, n) && Below(t, u, n)
    ensures Below(s, u, n)
  {
  }

  predicate IsCall(i: Instruction) { i.Call? || i.CallTo? || i.CallWith? }
  predicate IsReturn(i: Instruction) { i.Ret? || i.RetReg? || i.RetConstant? }

  /** A call, a run of the procedure and all it calls, and the procedure's return. */
  ghost predicate CallAndReturn(s: State, call: Instruction, u: State, code: seq<Instruction>, v: State,
                                ret: Instruction, t: State) {
    && Valid(s) && s.frames != [] && AllAllowed(s, [call] + code) && IsCall(call) && IsReturn(ret)
    && Step(s, call).Next? && u == Step(s, call).state
    && Above(u, code, |s.frames|) && Run(u, code).Next? && v == Run(u, code).state && |v.frames| == |s.frames| + 1
    && Step(v, ret).Next? && t == Step(v, ret).state
  }

  /** The callee keeps its name and its caller's wish for a result, and the frames below
      stay as the call left them, until it returns. */
  lemma CalleeStands(s: State, call: Instruction, u: State, code: seq<Instruction>, v: State, ret: Instruction, t: State)
    requires CallAndReturn(s, call, u, code, v, ret, t)
    ensures Follows(s, u) && Follows(u, v) && Allowed(s, call) && Below(u, v, |s.frames|)
    ensures IsReturn(ret) ==> Allowed(v, ret)
  {
    hide Step, Run, Valid;
    assert ([call] + code)[0] == call;
    StepValid(s, call);
    AllowedLater(s, u, [call] + code);
    assert forall k :: 0 <= k < |code| ==> code[k] == ([call] + code)[k + 1];
    RunBelow(u, code, |s.frames|);
  }

  /** The call puts a frame on top, with the caller's wish for a result, and changes the
      caller's slots in the result register at most. */
  lemma AfterCall(s: State, call: Instruction)
    requires Valid(s) && Allowed(s, call) && s.frames != [] && IsCall(call) && CanRun(s, call)
    ensures var (r, n) := (Step(s, call), |s.frames|);
      && r.Next? && var u := r.state;
      && |u.frames| == n + 1 && u.frames[..n - 1] == s.frames[..n - 1]
      && u.frames[n].returnReg == (if call.Call? then None else Some(call.reg))
      && (if call.CallTo? then But(Top(s), u.frames[n - 1], call.reg) && u.frames[n - 1].slots[call.reg] == Null
          else u.frames[n - 1] == Top(s))
  {
    hide Step, Run, Valid, Frees, GlobalsOk, Fresh;
    match call
    case Call(p) =>
      CallStep(s, p);
      FramesKept(s, Step(s, call).state);
    case CallTo(reg, p) => CallToStep(s, reg, p);
    case CallWith(reg, p, argument, count) =>
      CallWithStep(s, reg, p, argument, count);
      FramesKept(s, Step(s, call).state);
  }

  lemma FramesKept(s: State, u: State)
    requires s.frames != [] && |u.frames| > |s.frames| && u.frames[..|s.frames|] == s.frames
    ensures u.frames[..|s.frames| - 1] == s.frames[..|s.frames| - 1] && u.frames[|s.frames| - 1] == Top(s)
  {
    assert u.frames[..|s.frames|][..|s.frames| - 1] == u.frames[..|s.frames| - 1];
    assert u.frames[..|s.frames|][|s.frames| - 1] == u.frames[|s.frames| - 1];
  }

  /** When the callee is about to return it still has that wish, and the caller stands as
      the call left it. */
  lemma BeforeReturn(s: State, call: Instruction, u: State, code: seq<Instruction>, v: State, ret: Instruction, t: State)
    requires CallAndReturn(s, call, u, code, v, ret, t)
    ensures var n := |s.frames|;
      && Valid(v) && CanRun(v, ret) && |v.frames| == n + 1 && v.frames[..n - 1] == s.frames[..n - 1]
      && Top(v).returnReg == (if call.Call? then None else Some(call.reg))
      && (if call.CallTo? then But(Top(s), v.frames[n - 1], call.reg) && v.frames[n - 1].slots[call.reg] == Null
          else v.frames[n - 1] == Top(s))
  {
    hide Step, Run, Valid, GlobalsOk, CanRun, But;
    CalleeStands(s, call, u, code, v, ret, t);
    RunsExact(s, call);
    RunsExact(v, ret);
    AfterCall(s, call);
    var n := |s.frames|;
    assert v.frames[n - 1] == v.frames[..n][n - 1] == u.frames[..n][n - 1];
    assert v.frames[..n - 1] == v.frames[..n][..n - 1] == u.frames[..n][..n - 1] == u.frames[..n - 1];
  }

  /** Where a result is wanted and returned, the caller's slots are as before but for the
      result register, which holds the callee's own value, the caller's from now on, or
      else a new value of the caller's. */
  lemma CallResult(s: State, call: Instruction, u: State, code: seq<Instruction>, v: State, ret: Instruction, t: State)
    requires CallAndReturn(s, call, u, code, v, ret, t) && !call.Call? && !ret.Ret?
    ensures var n := |s.frames|;
      && |t.frames| == n && t.frames[..n - 1] == s.frames[..n - 1]
      && But(Top(s), Top(t), call.reg) && call.reg < |Top(t).slots|
      && ResultIs(v, t, Top(t).slots[call.reg], Adopted(v, ret))
  {
    hide Step, Run, Valid, Left, ResultIs, CanRun, Adopted;
    BeforeReturn(s, call, u, code, v, ret, t);
    ResultReturn(v, ret);
  }

  /** Otherwise all slots of the caller are as before, but for a result register that the
      call cleared. */
  lemma CallNoResult(s: State, call: Instruction, u: State, code: seq<Instruction>, v: State, ret: Instruction, t: State)
    requires CallAndReturn(s, call, u, code, v, ret, t) && (call.Call? || ret.Ret?)
    ensures var n := |s.frames|;
      && |t.frames| == n && t.frames[..n - 1] == s.frames[..n - 1]
      && (if call.CallTo? then But(Top(s), Top(t), call.reg) && Top(t).slots[call.reg] == Null else Top(t) == Top(s))
  {
    hide Step, Run, Valid, Left, CanRun, But;
    BeforeReturn(s, call, u, code, v, ret, t);
    PlainReturn(v, ret);
    assert v.frames[..|s.frames|][..|s.frames| - 1] == v.frames[..|s.frames| - 1];
  }
}
