/** Whether everything that frames own is freed by the end of a run. */
module FrameLeaks {
  import opened FrameValues
  import opened FrameSteps

  /** The frame that owns the value has it in a slot. */
  ghost predicate HeldIn(frames: seq<Frame>, v: nat, id: nat) {
    exists k :: 0 <= k < |frames| && frames[k].id == id && Val(v) in frames[k].slots
  }

  /** Every value of a frame is in one of the frame's slots. */
  ghost predicate Kept(s: State) {
    forall v: nat :: v in s.owner && s.owner[v].OfFrame? ==> HeldIn(s.frames, v, s.owner[v].id)
  }

  /** A result is put where the caller has a value of its own, which is not freed before. */
  predicate Overwrites(s: State, i: Instruction) {
    && (i.RetReg? || i.RetConstant?) && |s.frames| > 1 && Top(s).returnReg.Some?
    && var (caller, reg) := (s.frames[|s.frames| - 2], Top(s).returnReg.value);
    && reg < |caller.slots| && Own(s.owner, caller.id, [caller.slots[reg]], Value(caller.slots[reg]))
  }

  /* ---- Steps ---- */

  lemma HeldMore(frames: seq<Frame>, more: seq<Frame>, v: nat, id: nat)
    requires HeldIn(frames, v, id) && |frames| <= |more| && more[..|frames|] == frames
    ensures HeldIn(more, v, id)
  {
    var k :| 0 <= k < |frames| && frames[k].id == id && Val(v) in frames[k].slots;
    assert more[k] == more[..|frames|][k];
  }

  /** Values owned by the frame to come are among its arguments. */
  lemma EnterKept(s: State, p: Procedure, arguments: seq<Slot>, returnReg: Option<nat>)
    requires forall v: nat :: v in s.owner && s.owner[v].OfFrame? ==>
      HeldIn(s.frames, v, s.owner[v].id) || (s.owner[v].id == s.nextFrame && Val(v) in arguments)
    ensures Kept(Enter(s, p, arguments, returnReg))
  {
    var t := Enter(s, p, arguments, returnReg);
    var own := OwnSlots(s.nextValue, p);
    var c := t.frames[|s.frames|];
    assert c.slots == own + arguments;
    forall v: nat | v in t.owner && t.owner[v].OfFrame? ensures HeldIn(t.frames, v, t.owner[v].id) {
      if s.nextValue <= v < s.nextValue + p.locals {
        assert own[v - s.nextValue] == Val(v) && c.slots[v - s.nextValue] == Val(v);
      } else if HeldIn(s.frames, v, s.owner[v].id) {
        HeldMore(s.frames, t.frames, v, s.owner[v].id);
      } else {
        assert Val(v) in c.slots;
      }
    }
  }

  lemma PlainKept(s: State, p: Procedure, returnReg: Option<nat>)
    requires Kept(s)
    ensures Kept(EnterPlain(s, p, returnReg))
  {
    EnterKept(NewValue(s, s.nextFrame), p, [Val(s.nextValue)], returnReg);
  }

  /** Frames with the same names, of which one has other slots. */
  lemma HeldBut(s: State, t: State, k: nat, v: nat, id: nat)
    requires k < |s.frames| == |t.frames| && t.frames[k].id == s.frames[k].id
    requires forall j :: 0 <= j < |s.frames| && j != k ==> t.frames[j] == s.frames[j]
    requires HeldIn(s.frames, v, id) && (id == s.frames[k].id ==> Val(v) in t.frames[k].slots)
    ensures HeldIn(t.frames, v, id)
  {
    var j :| 0 <= j < |s.frames| && s.frames[j].id == id && Val(v) in s.frames[j].slots;
    assert t.frames[j].id == id && Val(v) in t.frames[j].slots;
  }

  lemma EmptiedKept(s: State, reg: nat)
    requires Valid(s) && s.frames != [] && reg < |Top(s).slots| && Kept(s)
    ensures var f := FreeSlots(s.owner, Top(s).id, [Top(s).slots[reg]]); f.Some? && Kept(Emptied(s, reg, f.value.owner))
  {
    SlotAllocated(s, reg);
    FreeSlotsExact(s.owner, Top(s).id, [Top(s).slots[reg]]);
    var k, x := |s.frames| - 1, Top(s).slots;
    var f := FreeSlots(s.owner, Top(s).id, [x[reg]]).value;
    var t := Emptied(s, reg, f.owner);
    hide FreeSlots, HeldIn;
    forall v: nat | v in t.owner && t.owner[v].OfFrame? ensures HeldIn(t.frames, v, t.owner[v].id) {
      assert HeldIn(s.frames, v, s.owner[v].id);
      if s.owner[v].id == Top(s).id {
        HeldAtTop(s, k, v);
        assert x[reg] != Val(v) by { assert x[reg] in [x[reg]]; }
        OtherStays(x, reg, Null, v);
      }
      HeldBut(s, t, k, v, s.owner[v].id);
    }
  }

  /** What a frame owns and holds is in its own slots: names are unique. */
  lemma HeldAtTop(s: State, k: nat, v: nat)
    requires Valid(s) && k < |s.frames| && HeldIn(s.frames, v, s.frames[k].id)
    ensures Val(v) in s.frames[k].slots
  {
    hide FrameOk;
    var j :| 0 <= j < |s.frames| && s.frames[j].id == s.frames[k].id && Val(v) in s.frames[j].slots;
    assert j == k;
  }

  lemma OtherStays(x: seq<Slot>, reg: nat, slot: Slot, v: nat)
    requires reg < |x| && Val(v) in x && x[reg] != Val(v)
    ensures Val(v) in x[reg := slot]
  {
    var j :| 0 <= j < |x| && x[j] == Val(v);
    assert x[reg := slot][j] == Val(v);
  }

  lemma LeaveKept(s: State)
    requires Valid(s) && s.frames != [] && Kept(s)
    ensures var r := Leave(s); Running(r) && Kept(r.state)
  {
    LeaveIs(s);
    var r, n := Leave(s), |s.frames|;
    hide Leave, HeldIn;
    forall v: nat | v in r.state.owner && r.state.owner[v].OfFrame?
      ensures HeldIn(r.state.frames, v, r.state.owner[v].id)
    {
      assert HeldIn(s.frames, v, s.owner[v].id);
      if s.owner[v].id == Top(s).id {
        HeldAtTop(s, n - 1, v);
        assert false;
      }
      HeldBelow(s, v, s.owner[v].id);
    }
  }

  lemma HeldBelow(s: State, v: nat, id: nat)
    requires s.frames != [] && HeldIn(s.frames, v, id) && id != Top(s).id
    ensures HeldIn(s.frames[..|s.frames| - 1], v, id)
  {
    var k :| 0 <= k < |s.frames| && s.frames[k].id == id && Val(v) in s.frames[k].slots;
    assert s.frames[..|s.frames| - 1][k] == s.frames[k];
  }

  /** The result is in the caller's slot: nothing is lost unless it took the place of a
      value of the caller's. */
  lemma HandedKept(s: State, u: State, adopted: Option<Slot>)
    requires Valid(s) && Valid(u) && HasReturnOk(s) && Handed(s, u, adopted) && Kept(s)
    requires adopted.Some? ==> adopted.value.Val?
    requires var (caller, reg) := (s.frames[|s.frames| - 2], Top(s).returnReg.value);
      !Own(s.owner, caller.id, [caller.slots[reg]], Value(caller.slots[reg]))
    ensures Kept(u)
  {
    var k, reg := |s.frames| - 2, Top(s).returnReg.value;
    var caller := s.frames[k];
    HandedFrames(s, u, adopted);
    hide HeldIn, Valid, Returned;
    forall v: nat | v in u.owner && u.owner[v].OfFrame? ensures HeldIn(u.frames, v, u.owner[v].id) {
      if v in s.owner && adopted != Some(Val(v)) {
        assert HeldIn(s.frames, v, s.owner[v].id);
        if s.owner[v].id == caller.id {
          HeldAtTop(s, k, v);
          assert caller.slots[reg] != Val(v) by { assert caller.slots[reg] in [caller.slots[reg]]; }
          StaysBut(caller, u.frames[k], reg, v);
        }
        HeldBut(s, u, k, v, s.owner[v].id);
      } else {
        HeldAt(u, k, reg, v);
      }
    }
  }

  lemma HandedFrames(s: State, u: State, adopted: Option<Slot>)
    requires HasReturnOk(s) && Handed(s, u, adopted)
    ensures var k := |s.frames| - 2;
      |u.frames| == |s.frames| && forall j :: 0 <= j < |s.frames| && j != k ==> u.frames[j] == s.frames[j]
  {
    var k := |s.frames| - 2;
    forall j | 0 <= j < k ensures u.frames[j] == s.frames[j] {
      assert u.frames[..k][j] == s.frames[..k][j];
    }
  }

  lemma StaysBut(x: Frame, y: Frame, reg: nat, v: nat)
    requires But(x, y, reg) && reg < |x.slots| && Val(v) in x.slots && x.slots[reg] != Val(v)
    ensures Val(v) in y.slots
  {
    var j :| 0 <= j < |x.slots| && x.slots[j] == Val(v);
    assert y.slots[j] == Val(v);
  }

  lemma HeldAt(s: State, k: nat, reg: nat, v: nat)
    requires k < |s.frames| && reg < |s.frames[k].slots| && s.frames[k].slots[reg] == Val(v)
    ensures HeldIn(s.frames, v, s.frames[k].id)
  {
  }

  /** A result handed over and the frame left. */
  lemma ResultKept(s: State, i: Instruction)
    requires Valid(s) && |s.frames| > 1 && CanRun(s, i) && Kept(s)
    requires (i.RetReg? || i.RetConstant?) && Top(s).returnReg.Some? && !Overwrites(s, i)
    ensures Running(Step(s, i)) && Kept(Step(s, i).state)
  {
    hide Leave, HandOver, SetSlot, Valid, FrameOk, SlotOk, Handed, Own, Kept, Adopted;
    ReturnWanted(s);
    var k := |s.frames| - 2;
    if i.RetConstant? {
      var u := SetSlot(NewValue(s, s.frames[k].id), k, Top(s).returnReg.value, Val(s.nextValue));
      NewResultValid(s);
      NewIs(s);
      LeftKept(s, u, None);
    } else {
      SlotAllocated(s, i.reg);
      HandOverValid(s, i.reg);
      HandOverIs(s, i.reg);
      AdoptedSome(s, i);
      LeftKept(s, HandOver(s, Top(s).slots[i.reg].value), Adopted(s, i));
    }
  }

  lemma AdoptedSome(s: State, i: Instruction)
    requires s.frames != []
    ensures Adopted(s, i).Some? ==> Adopted(s, i).value.Val?
  {
  }

  lemma LeftKept(s: State, u: State, adopted: Option<Slot>)
    requires Valid(s) && Valid(u) && HasReturnOk(s) && Handed(s, u, adopted) && Kept(s) && u.frames != []
    requires adopted.Some? ==> adopted.value.Val?
    requires var (caller, reg) := (s.frames[|s.frames| - 2], Top(s).returnReg.value);
      !Own(s.owner, caller.id, [caller.slots[reg]], Value(caller.slots[reg]))
    ensures var r := Leave(u); Running(r) && Kept(r.state)
  {
    hide Leave, Handed, Kept, Own, Valid;
    HandedKept(s, u, adopted);
    LeaveKept(u);
  }

  lemma MovedKept(s: State, a: nat, b: nat)
    requires Valid(s) && s.frames != [] && CanRun(s, Move(a, b)) && Kept(s)
    ensures Step(s, Move(a, b)).Next? && Kept(Step(s, Move(a, b)).state)
  {
    hide FreeSlots, Emptied, Moved, Valid, Kept, SetSlot;
    ClearValid(s, a);
    EmptiedKept(s, a);
    EmptiedIs(s, a);
    var f := FreeSlots(s.owner, Top(s).id, [Top(s).slots[a]]).value;
    MovedIs(s, a, b, f.owner);
    if a != b { ExchangedKept(Emptied(s, a, f.owner), a, b); }
  }

  /** Exchanging two slots of the running frame loses nothing. */
  lemma ExchangedKept(s: State, a: nat, b: nat)
    requires Valid(s) && s.frames != [] && a < |Top(s).slots| && b < |Top(s).slots| && Kept(s)
    ensures Kept(SetSlot(SetSlot(s, |s.frames| - 1, a, Top(s).slots[b]), |s.frames| - 1, b, Top(s).slots[a]))
  {
    var k, x := |s.frames| - 1, Top(s).slots;
    var t := SetSlot(SetSlot(s, k, a, x[b]), k, b, x[a]);
    hide HeldIn;
    forall v: nat | v in t.owner && t.owner[v].OfFrame? ensures HeldIn(t.frames, v, t.owner[v].id) {
      assert HeldIn(s.frames, v, s.owner[v].id);
      if s.owner[v].id == Top(s).id {
        HeldAtTop(s, k, v);
        var j: nat :| j < |x| && x[j] == Val(v);
        assert t.frames[k].slots[Swapped(a, b, j)] == Val(v);
      }
      HeldBut(s, t, k, v, s.owner[v].id);
    }
  }

  /** A step keeps every value in a slot of its owner, unless it overwrites one. */
  lemma StepKept(s: State, i: Instruction)
    requires Valid(s) && Allowed(s, i) && s.frames != [] && CanRun(s, i) && Kept(s) && !Overwrites(s, i)
    ensures Running(Step(s, i)) && Kept(Step(s, i).state)
  {
    hide Step, Valid, Kept, Overwrites, CanRun, Allowed;
    RunsExact(s, i);
    match i
    case Swap(a, b) => SwappedKept(s, a, b);
    case Move(a, b) => MovedKept(s, a, b);
    case Use(reg) => UseStep(s, reg);
    case _ => if IsCall(i) { CallKept(s, i); } else { ReturnKept(s, i); }
  }

  lemma SwappedKept(s: State, a: nat, b: nat)
    requires Valid(s) && s.frames != [] && CanRun(s, Swap(a, b)) && Kept(s)
    ensures Step(s, Swap(a, b)).Next? && Kept(Step(s, Swap(a, b)).state)
  {
    hide Valid, Kept, SetSlot;
    ExchangedKept(s, a, b);
  }

  lemma CallKept(s: State, i: Instruction)
    requires Valid(s) && Allowed(s, i) && s.frames != [] && CanRun(s, i) && Kept(s) && IsCall(i)
    ensures Running(Step(s, i)) && Kept(Step(s, i).state)
  {
    hide Valid, Kept, FreeSlots, EnterPlain, Enter, Emptied, Allowed;
    RunsExact(s, i);
    match i
    case Call(p) => PlainKept(s, p, None);
    case CallTo(reg, p) =>
      ClearValid(s, reg);
      EmptiedKept(s, reg);
      PlainKept(Emptied(s, reg, FreeSlots(s.owner, Top(s).id, [Top(s).slots[reg]]).value.owner), p, Some(reg));
    case CallWith(reg, p, argument, count) => ArgumentsKept(s, p, argument, count, reg);
  }

  lemma ReturnKept(s: State, i: Instruction)
    requires Valid(s) && Allowed(s, i) && s.frames != [] && CanRun(s, i) && Kept(s) && IsReturn(i) && !Overwrites(s, i)
    ensures Running(Step(s, i)) && Kept(Step(s, i).state)
  {
    hide Valid, Kept, Leave, Overwrites, CanRun, HandOver, SetSlot;
    if !i.Ret? && |s.frames| > 1 && Top(s).returnReg.Some? {
      ResultKept(s, i);
    } else {
      if !i.Ret? {
        RunsExact(s, i);
        NoReturn(s, i);
      }
      LeaveKept(s);
    }
  }

  lemma ArgumentsKept(s: State, p: Procedure, argument: nat, count: nat, reg: nat)
    requires s.frames != [] && argument + count < |Top(s).slots| && Kept(s)
    ensures Kept(Enter(s, p, Top(s).slots[argument..argument + count + 1], Some(reg)))
  {
    EnterKept(s, p, Top(s).slots[argument..argument + count + 1], Some(reg));
  }

  lemma NoReturn(s: State, i: Instruction)
    requires s.frames != [] && CanRun(s, i) && Running(Step(s, i)) && (i.RetReg? || i.RetConstant?)
    requires |s.frames| == 1 || Top(s).returnReg.None?
    ensures Step(s, i) == Leave(s)
  {
    hide Leave;
  }

  /* ---- Lost values ---- */

  predicate Nowhere(frames: seq<Frame>, v: nat) {
    forall k :: 0 <= k < |frames| ==> Val(v) !in frames[k].slots
  }

  /** A value that a frame owns and no slot refers to. */
  predicate Lost(s: State, v: nat) {
    v in s.owner && s.owner[v].OfFrame? && Nowhere(s.frames, v)
  }

  lemma LostNotKept(s: State, v: nat)
    requires Lost(s, v)
    ensures !Kept(s)
  {
  }

  /** The value that a result takes the place of is lost. */
  lemma OverwriteLoses(s: State, i: Instruction) returns (v: nat)
    requires Valid(s) && Allowed(s, i) && s.frames != [] && CanRun(s, i) && Overwrites(s, i)
    ensures Step(s, i).Next? && Lost(Step(s, i).state, v)
  {
    hide Leave, HandOver, FreeSlots, Step, Left, ResultIs, Adopted;
    ResultReturn(s, i);
    var k, reg := |s.frames| - 2, Top(s).returnReg.value;
    var caller, t := s.frames[k], Step(s, i).state;
    v := Value(caller.slots[reg]);
    assert caller.slots[reg] == Val(v) && s.owner[v] == OfFrame(caller.id);
    NotTaken(s, i, t, Step(s, i).freed, v);
    hide Valid;
    forall j | 0 <= j < |t.frames| ensures Val(v) !in t.frames[j].slots {
      if j < k {
        assert t.frames[j] == t.frames[..k][j] == s.frames[..k][j];
        NotBelow(s, j, k, v);
      } else {
        OnlyThere(s, caller, reg, v, k);
        assert t.frames[k].slots[reg] != Val(v);
      }
    }
  }

  /** It is neither freed nor handed over. */
  lemma NotTaken(s: State, i: Instruction, t: State, freed: seq<nat>, v: nat)
    requires Valid(s) && |s.frames| > 1 && v in s.owner && s.owner[v] == OfFrame(s.frames[|s.frames| - 2].id)
    requires Top(s).returnReg.Some? && |t.frames| == |s.frames| - 1
    requires Top(s).returnReg.value < |t.frames[|s.frames| - 2].slots|
    requires ResultIs(s, t, t.frames[|s.frames| - 2].slots[Top(s).returnReg.value], Adopted(s, i))
    requires Left(s, t, freed, Adopted(s, i))
    ensures v in t.owner && t.owner[v] == s.owner[v]
    ensures t.frames[|s.frames| - 2].slots[Top(s).returnReg.value] != Val(v)
  {
    assert s.frames[|s.frames| - 2].id < Top(s).id;
  }

  lemma NotBelow(s: State, j: nat, k: nat, v: nat)
    requires Valid(s) && j < k < |s.frames| && v in s.owner && s.owner[v] == OfFrame(s.frames[k].id)
    ensures Val(v) !in s.frames[j].slots
  {
    assert FrameOk(s, s.frames[j]);
    forall i | 0 <= i < |s.frames[j].slots| ensures s.frames[j].slots[i] != Val(v) {
      assert SlotOk(s, s.frames[j], s.frames[j].slots[i]);
    }
  }

  lemma OnlyThere(s: State, frame: Frame, reg: nat, v: nat, k: nat)
    requires Valid(s) && k < |s.frames| && frame == s.frames[k]
    requires reg < |frame.slots| && frame.slots[reg] == Val(v) && v in s.owner && s.owner[v].OfFrame?
    ensures forall j :: 0 <= j < |frame.slots| && j != reg ==> frame.slots[j] != Val(v)
  {
    assert FrameOk(s, frame);
    forall j: nat | j < |frame.slots| && j != reg ensures frame.slots[j] != Val(v) {
      OtherSlot(s, frame, j, reg);
    }
  }

  /** A new frame does not refer to a lost value. */
  lemma EnteredNowhere(s: State, t: State, p: Procedure, returnReg: Option<nat>, v: nat)
    requires Lost(s, v) && GlobalsOk(s, p) && Entered(s, t, p, returnReg)
    requires forall j :: p.locals + |p.globals| <= j < |Top(t).slots| ==> Top(t).slots[j] != Val(v)
    ensures Val(v) !in Top(t).slots
  {
  }

  lemma CallLost(s: State, i: Instruction, v: nat)
    requires Valid(s) && Allowed(s, i) && s.frames != [] && CanRun(s, i) && Lost(s, v) && IsCall(i)
    ensures Step(s, i).Next? && Lost(Step(s, i).state, v)
  {
    hide Step, Valid, GlobalsOk;
    RunsExact(s, i);
    var t := Step(s, i).state;
    TopNowhere(s, v);
    match i
    case Call(p) =>
      CallStep(s, p);
      EnteredNowhere(s, t, p, None, v);
      LostUnder(s, t, v);
    case CallTo(reg, p) =>
      CallToStep(s, reg, p);
      EnteredNowhere(s, t, p, Some(reg), v);
      LostUnder(s, t, v);
    case CallWith(reg, p, argument, count) =>
      CallWithStep(s, reg, p, argument, count);
      assert forall j :: p.locals + |p.globals| <= j < |Top(t).slots| ==>
        Top(t).slots[j] == Top(t).slots[p.locals + |p.globals|..][j - (p.locals + |p.globals|)];
      EnteredNowhere(s, t, p, Some(reg), v);
      LostUnder(s, t, v);
  }

  lemma TopNowhere(s: State, v: nat)
    requires s.frames != [] && Lost(s, v)
    ensures Val(v) !in Top(s).slots
  {
  }

  /** The frames below the new one refer to nothing they did not refer to before. */
  lemma LostUnder(s: State, t: State, v: nat)
    requires s.frames != [] && Lost(s, v) && |t.frames| == |s.frames| + 1
    requires v in t.owner && t.owner[v] == s.owner[v] && Val(v) !in Top(t).slots
    requires t.frames[..|s.frames| - 1] == s.frames[..|s.frames| - 1]
    requires Val(v) !in t.frames[|s.frames| - 1].slots
    ensures Lost(t, v)
  {
    forall k | 0 <= k < |t.frames| ensures Val(v) !in t.frames[k].slots {
      if k < |s.frames| - 1 { assert t.frames[k] == t.frames[..|s.frames| - 1][k] == s.frames[k]; }
    }
  }

  /** A step neither frees a lost value nor finds it again. */
  lemma StepLost(s: State, i: Instruction, v: nat)
    requires Valid(s) && Allowed(s, i) && s.frames != [] && CanRun(s, i) && Lost(s, v)
    ensures Running(Step(s, i)) && Lost(Step(s, i).state, v)
  {
    hide Step, Valid, Entered, GlobalsOk, Leave;
    RunsExact(s, i);
    TopNowhere(s, v);
    if IsCall(i) {
      CallLost(s, i, v);
    } else if IsReturn(i) {
      ReturnLost(s, i, v);
    } else {
      match i {
        case Swap(a, b) => SwapStep(s, a, b);
        case Move(a, b) => MoveStep(s, a, b);
        case Use(reg) => UseStep(s, reg);
      }
      var t := Step(s, i).state;
      forall k | 0 <= k < |t.frames| ensures Val(v) !in t.frames[k].slots {
        if k < |s.frames| - 1 { assert t.frames[k] == t.frames[..|s.frames| - 1][k] == s.frames[..|s.frames| - 1][k]; }
      }
    }
  }

  lemma ReturnLost(s: State, i: Instruction, v: nat)
    requires Valid(s) && Allowed(s, i) && s.frames != [] && CanRun(s, i) && Lost(s, v) && IsReturn(i)
    ensures Running(Step(s, i)) && Lost(Step(s, i).state, v)
  {
    hide Valid, Leave, HandOver, SetSlot, Returned, ResultIs, Adopted;
    TopNowhere(s, v);
    if |s.frames| > 1 && !i.Ret? && Top(s).returnReg.Some? {
      ResultReturn(s, i);
      ResultLost(s, i, Step(s, i).state, Step(s, i).freed, v);
    } else {
      if !i.Ret? {
        RunsExact(s, i);
        NoReturn(s, i);
      }
      LeaveIs(s);
    }
  }

  lemma ResultLost(s: State, i: Instruction, t: State, freed: seq<nat>, v: nat)
    requires |s.frames| > 1 && Top(s).returnReg.Some? && Lost(s, v) && Returned(s, t)
    requires Top(s).returnReg.value < |t.frames[|s.frames| - 2].slots|
    requires ResultIs(s, t, t.frames[|s.frames| - 2].slots[Top(s).returnReg.value], Adopted(s, i))
    requires Left(s, t, freed, Adopted(s, i))
    ensures Lost(t, v)
  {
    TopNowhere(s, v);
    var n := |s.frames|;
    forall k | 0 <= k < |t.frames| ensures Val(v) !in t.frames[k].slots {
      if k < n - 2 { assert t.frames[k] == t.frames[..n - 2][k] == s.frames[..n - 2][k]; }
    }
  }

  /* ---- Runs ---- */

  /** No result on the way takes the place of a value of the caller's. */
  predicate Careful(s: State, code: seq<Instruction>)
    decreases |code|
  {
    code != [] ==>
      && !Overwrites(s, code[0])
      && (Step(s, code[0]).Next? ==> Careful(Step(s, code[0]).state, code[1..]))
  }

  /** A step keeps every value in a slot of its owner if and only if it overwrites none. */
  lemma StepExact(s: State, i: Instruction)
    requires Valid(s) && Allowed(s, i) && s.frames != [] && CanRun(s, i) && Kept(s)
    ensures Running(Step(s, i)) && (Kept(Step(s, i).state) <==> !Overwrites(s, i))
  {
    RunsExact(s, i);
    hide Step, Valid, Kept, Overwrites, CanRun, Allowed, Lost;
    if Overwrites(s, i) {
      var v := OverwriteLoses(s, i);
      LostNotKept(Step(s, i).state, v);
    } else {
      StepKept(s, i);
    }
  }

  /** A lost value stays lost to the end. */
  lemma {:induction false} RunLost(s: State, code: seq<Instruction>, v: nat)
    requires Valid(s) && AllAllowed(s, code) && Lost(s, v) && Running(Run(s, code))
    ensures Lost(Run(s, code).state, v)
    decreases |code|
  {
    hide Step, Valid, Lost, CanRun;
    if code != [] {
      NextOk(s, code);
      StepLost(s, code[0], v);
      if Step(s, code[0]).Next? { RunLost(Step(s, code[0]).state, code[1..], v); }
    }
  }

  /** The first instruction of a run that does not fault. */
  lemma NextOk(s: State, code: seq<Instruction>)
    requires Valid(s) && code != [] && AllAllowed(s, code) && Running(Run(s, code))
    ensures s.frames != [] && Allowed(s, code[0]) && CanRun(s, code[0]) && Running(Step(s, code[0]))
    ensures var t := Step(s, code[0]).state;
      Valid(t) && AllAllowed(t, code[1..]) && (Step(s, code[0]).Next? ==> Running(Run(t, code[1..])))
    ensures Run(s, code).state == if Step(s, code[0]).Next? then Run(Step(s, code[0]).state, code[1..]).state
                                  else Step(s, code[0]).state
  {
    assert Allowed(s, code[0]);
    assert s.frames != [];
    RunsExact(s, code[0]);
    StepValid(s, code[0]);
    hide Step, Valid, CanRun;
    AllowedLater(s, Step(s, code[0]).state, code);
    assert forall k :: 0 <= k < |code[1..]| ==> code[1..][k] == code[k + 1];
  }

  /** After a run every value is in a slot of its owner if and only if the run was careful. */
  lemma {:induction false} RunExact(s: State, code: seq<Instruction>)
    requires Valid(s) && AllAllowed(s, code) && Kept(s) && Running(Run(s, code))
    ensures Kept(Run(s, code).state) <==> Careful(s, code)
    decreases |code|
  {
    hide Step, Valid, Kept, Overwrites, CanRun, Lost;
    if code != [] {
      NextOk(s, code);
      var r := Step(s, code[0]);
      StepExact(s, code[0]);
      if Overwrites(s, code[0]) {
        var v := OverwriteLoses(s, code[0]);
        RunLost(r.state, code[1..], v);
        LostNotKept(Run(s, code).state, v);
      } else if r.Next? {
        RunExact(r.state, code[1..]);
      }
    }
  }

  /** When the program has ended, all values but the globals' have been freed if and only
      if the run was careful. */
  lemma EndExact(s: State, code: seq<Instruction>)
    requires Valid(s) && AllAllowed(s, code) && Kept(s) && Run(s, code).Ended?
    ensures (forall v: nat :: v in Run(s, code).state.owner ==> Run(s, code).state.owner[v].OfGlobals?)
      <==> Careful(s, code)
  {
    hide Step, Valid, Careful;
    RunExact(s, code);
    EndedEmpty(s, code);
  }

  lemma {:induction false} EndedEmpty(s: State, code: seq<Instruction>)
    requires Valid(s) && AllAllowed(s, code) && Run(s, code).Ended?
    ensures Run(s, code).state.frames == []
    decreases |code|
  {
    hide Step, Valid, CanRun;
    NextOk(s, code);
    if Step(s, code[0]).Next? {
      EndedEmpty(Step(s, code[0]).state, code[1..]);
    } else {
      EndedStep(s, code[0]);
    }
  }

  lemma EndedStep(s: State, i: Instruction)
    requires Step(s, i).Ended?
    ensures Step(s, i).state.frames == []
  {
    hide FreeSlots;
  }

  /* ---- A run that is not careful ---- */

  function Caller(result: nat): Frame { Frame(0, [Val(result), Val(1)], None) }

  const Callee := Frame(1, [Val(1)], Some(0))

  const Called := State([Caller(0), Callee], map[0 := OfFrame(0), 1 := OfFrame(0)], 2, 2)

  const Back := State([Caller(2)], map[0 := OfFrame(0), 1 := OfFrame(0), 2 := OfFrame(0)], 3, 2)

  /** The result of a call with arguments goes into a register that has a value: no slot
      refers to that value any more, and when the program ends it has not been freed. */
  lemma CallLeaks()
    ensures var s := State([Caller(0)], map[0 := OfFrame(0), 1 := OfFrame(0)], 2, 1);
      && Valid(s) && Kept(s)
      && Step(s, CallWith(0, Procedure(0, []), 1, 0)) == Next(Called, [])
      && Step(Called, RetConstant) == Next(Back, [])
      && Step(Back, Ret) == Ended(State([], map[0 := OfFrame(0)], 3, 2), [2, 1])
  {
    hide Step;
    var s := State([Caller(0)], map[0 := OfFrame(0), 1 := OfFrame(0)], 2, 1);
    assert Caller(0).slots[0] == Val(0) && Caller(0).slots[1] == Val(1);
    forall v: nat | v in s.owner ensures HeldIn(s.frames, v, 0) {
      assert s.frames[0].id == 0 && Val(v) in s.frames[0].slots;
    }
    StepIn(s);
    StepBack();
    StepOut();
  }

  lemma StepIn(s: State)
    requires s == State([Caller(0)], map[0 := OfFrame(0), 1 := OfFrame(0)], 2, 1)
    ensures Step(s, CallWith(0, Procedure(0, []), 1, 0)) == Next(Called, [])
  {
    assert Caller(0).slots[1..2] == [Val(1)];
    assert OwnSlots(2, Procedure(0, [])) + [Val(1)] == [Val(1)];
  }

  lemma StepBack()
    ensures Step(Called, RetConstant) == Next(Back, [])
  {
    var u := SetSlot(NewValue(Called, 0), 0, 0, Val(2));
    assert Caller(0).slots[0 := Val(2)] == Caller(2).slots;
    assert u.frames == [Caller(2), Callee] && u.owner == Back.owner;
    assert Callee.slots[1..] == [] && Callee.slots[0] == Val(1);
    assert FreeSlots(u.owner, 1, []) == Some(Freeing(u.owner, []));
    assert FreeSlots(u.owner, 1, Callee.slots) == Some(Freeing(u.owner, []));
    assert u.frames[..1] == [Caller(2)];
  }

  lemma StepOut()
    ensures Step(Back, Ret) == Ended(State([], map[0 := OfFrame(0)], 3, 2), [2, 1])
  {
    var x, all := Caller(2).slots, Back.owner;
    var one, none := all - {2}, all - {2} - {1};
    assert x[0] == Val(2) && x[1..] == [Val(1)] && x[1..][1..] == [];
    assert FreeSlots(none, 0, []) == Some(Freeing(none, []));
    assert FreeSlots(one, 0, x[1..]) == Some(Freeing(none, [1] + []));
    assert FreeSlots(all, 0, x) == Some(Freeing(none, [2] + ([1] + [])));
    assert none == map[0 := OfFrame(0)];
  }
}
