/** Who owns the values behind the register slots of the interpreter's stack frames. */
module FrameValues {
  datatype Owner = OfFrame(id: nat) | OfGlobals(index: nat)

  /** A register slot: null or a pointer to a value. */
  datatype Slot = Null | Val(value: nat)

  datatype Option<T> = None | Some(value: T)

  /** `returnReg` is the caller's slot for the result, if one is wanted. */
  datatype Frame = Frame(id: nat, slots: seq<Slot>, returnReg: Option<nat>)

  datatype Procedure = Procedure(locals: nat, globals: seq<nat>)

  /** The frames, the running one last; the owner of every value that is allocated; and
      the next unused names for values and frames. */
  datatype State = State(frames: seq<Frame>, owner: map<nat, Owner>, nextValue: nat, nextFrame: nat)

  datatype Instruction =
    | Call(callee: Procedure)
    | CallTo(reg: nat, callee: Procedure)
    | CallWith(reg: nat, callee: Procedure, argument: nat, count: nat)
    | Ret
    | RetReg(reg: nat)
    | RetConstant
    | Swap(a: nat, b: nat)
    | Move(a: nat, b: nat) // to a, from b, which is null afterwards
    | Use(reg: nat) // any instruction that works on the value in a register

  /** Broken: a pointer to a value that is not allocated has been followed. Fault: a null
      pointer has been followed, or a register does not exist. */
  datatype Outcome =
    | Next(state: State, freed: seq<nat>)
    | Ended(state: State, freed: seq<nat>)
    | Fault
    | Broken

  /* ---- Freeing ---- */

  datatype Freeing = Freeing(owner: map<nat, Owner>, freed: seq<nat>)

  /** Frees what the frame owns, slot by slot; None if a slot points to a value that is
      not allocated any more. */
  function FreeSlots(owner: map<nat, Owner>, id: nat, slots: seq<Slot>): Option<Freeing> {
    if slots == [] then Some(Freeing(owner, []))
    else if slots[0].Null? then FreeSlots(owner, id, slots[1..])
    else if slots[0].value !in owner then None
    else if owner[slots[0].value] == OfFrame(id) then
      var rest := FreeSlots(owner - {slots[0].value}, id, slots[1..]);
      if rest.None? then None else Some(Freeing(rest.value.owner, [slots[0].value] + rest.value.freed))
    else FreeSlots(owner, id, slots[1..])
  }

  /* ---- New frames ---- */

  /** The first slots of a frame: new values for the locals, then the globals. */
  function OwnSlots(first: nat, p: Procedure): seq<Slot> {
    seq(p.locals, i requires 0 <= i < p.locals => Val(first + i))
    + seq(|p.globals|, i requires 0 <= i < |p.globals| => Val(p.globals[i]))
  }

  function WithNew(owner: map<nat, Owner>, first: nat, n: nat, by': Owner): (r: map<nat, Owner>)
    ensures forall v: nat :: v in r <==> v in owner || first <= v < first + n
    ensures forall v: nat :: v in r ==> r[v] == if first <= v < first + n then by' else owner[v]
  {
    if n == 0 then owner else WithNew(owner, first, n - 1, by')[first + n - 1 := by']
  }

  /** Enters a procedure with the given argument slots. */
  function Enter(s: State, p: Procedure, arguments: seq<Slot>, returnReg: Option<nat>): State {
    var frame := Frame(s.nextFrame, OwnSlots(s.nextValue, p) + arguments, returnReg);
    State(s.frames + [frame], WithNew(s.owner, s.nextValue, p.locals, OfFrame(s.nextFrame)),
          s.nextValue + p.locals, s.nextFrame + 1)
  }

  function Top(s: State): Frame
    requires s.frames != []
  {
    s.frames[|s.frames| - 1]
  }

  function SetSlot(s: State, k: nat, reg: nat, slot: Slot): State
    requires k < |s.frames| && reg < |s.frames[k].slots|
  {
    s.(frames := s.frames[k := s.frames[k].(slots := s.frames[k].slots[reg := slot])])
  }

  /** A new value, owned by the frame. */
  function NewValue(s: State, id: nat): State {
    s.(owner := s.owner[s.nextValue := OfFrame(id)], nextValue := s.nextValue + 1)
  }

  /** The running frame's slot is null, and what it held is freed. */
  function Emptied(s: State, reg: nat, owner: map<nat, Owner>): State
    requires s.frames != [] && reg < |Top(s).slots|
  {
    SetSlot(s, |s.frames| - 1, reg, Null).(owner := owner)
  }

  /** The pointer is in the first slot, and the second one is null. */
  function Moved(s: State, a: nat, b: nat, slot: Slot): State
    requires s.frames != [] && a < |Top(s).slots| && b < |Top(s).slots|
  {
    SetSlot(SetSlot(s, |s.frames| - 1, a, slot), |s.frames| - 1, b, Null)
  }

  /* ---- Instructions ---- */

  /** Without arguments the callee gets a count of zero, its own value. */
  function EnterPlain(s: State, p: Procedure, returnReg: Option<nat>): State {
    Enter(NewValue(s, s.nextFrame), p, [Val(s.nextValue)], returnReg)
  }

  /** Leaves the running frame, which frees what it owns. */
  function Leave(s: State): Outcome
    requires s.frames != []
  {
    var f := FreeSlots(s.owner, Top(s).id, Top(s).slots);
    if f.None? then Broken
    else
      var after := s.(frames := s.frames[..|s.frames| - 1], owner := f.value.owner);
      if after.frames == [] then Ended(after, f.value.freed) else Next(after, f.value.freed)
  }

  /** Hands a result to the caller: the callee's own value is passed on, any other one
      is copied. */
  function HandOver(s: State, v: nat): State
    requires |s.frames| >= 2 && Top(s).returnReg.Some?
    requires Top(s).returnReg.value < |s.frames[|s.frames| - 2].slots|
    requires v in s.owner
  {
    var k, reg := |s.frames| - 2, Top(s).returnReg.value;
    var parent := s.frames[k].id;
    if s.owner[v] != OfFrame(Top(s).id) then SetSlot(NewValue(s, parent), k, reg, Val(s.nextValue))
    else SetSlot(s.(owner := s.owner[v := OfFrame(parent)]), k, reg, Val(v))
  }

  predicate HasReturn(s: State)
    requires s.frames != []
  {
    |s.frames| >= 2 && Top(s).returnReg.Some? && Top(s).returnReg.value < |s.frames[|s.frames| - 2].slots|
  }

  function Step(s: State, i: Instruction): Outcome {
    if s.frames == [] then Fault
    else
      var top, k := Top(s), |s.frames| - 1;
      match i
      case Call(p) => Next(EnterPlain(s, p, None), [])
      case CallTo(reg, p) =>
        if reg >= |top.slots| then Fault
        else
          var f := FreeSlots(s.owner, top.id, [top.slots[reg]]);
          if f.None? then Broken
          else
            Next(EnterPlain(Emptied(s, reg, f.value.owner), p, Some(reg)), f.value.freed)
      case CallWith(reg, p, argument, count) =>
        if reg >= |top.slots| || argument + count >= |top.slots| || top.slots[argument].Null? then Fault
        else if top.slots[argument].value !in s.owner then Broken
        else Next(Enter(s, p, top.slots[argument..argument + count + 1], Some(reg)), [])
      case Ret => Leave(s)
      case RetReg(reg) =>
        if reg >= |top.slots| || (top.slots[reg].Null? && (HasReturn(s) || k == 0)) then Fault
        else if (HasReturn(s) || k == 0) && top.slots[reg].value !in s.owner then Broken
        else Leave(if HasReturn(s) then HandOver(s, top.slots[reg].value) else s)
      case RetConstant =>
        if !HasReturn(s) then Leave(s)
        else
          var parent := s.frames[k - 1].id;
          Leave(SetSlot(NewValue(s, parent), k - 1, top.returnReg.value, Val(s.nextValue)))
      case Swap(a, b) =>
        if a >= |top.slots| || b >= |top.slots| then Fault
        else Next(SetSlot(SetSlot(s, k, a, top.slots[b]), k, b, top.slots[a]), [])
      case Move(a, b) =>
        if a >= |top.slots| || b >= |top.slots| then Fault
        else
          var f := FreeSlots(s.owner, top.id, [top.slots[a]]);
          if f.None? then Broken else Next(Moved(Emptied(s, a, f.value.owner), a, b, top.slots[b]), f.value.freed)
      case Use(reg) =>
        if reg >= |top.slots| || top.slots[reg].Null? then Fault
        else if top.slots[reg].value !in s.owner then Broken
        else Next(s, [])
  }

  /* ---- The invariant ---- */

  predicate SlotOk(s: State, frame: Frame, slot: Slot) {
    slot.Val? ==>
      slot.value in s.owner && (s.owner[slot.value].OfFrame? ==> s.owner[slot.value].id <= frame.id)
  }

  predicate Shareable(s: State, slot: Slot) {
    slot.Val? && slot.value in s.owner ==> s.owner[slot.value].OfGlobals?
  }

  /** A value owned by a frame is in one slot of a frame at most. */
  predicate NoTwins(s: State, frame: Frame) {
    forall i, j :: 0 <= i < j < |frame.slots| && frame.slots[i] == frame.slots[j] ==> Shareable(s, frame.slots[i])
  }

  predicate FrameOk(s: State, frame: Frame) {
    && frame.id < s.nextFrame && NoTwins(s, frame)
    && forall i :: 0 <= i < |frame.slots| ==> SlotOk(s, frame, frame.slots[i])
  }

  /** Every slot points to an allocated value; values owned by a frame are only in that
      frame and the frames called from it, once in each. */
  predicate Valid(s: State) {
    && (forall k :: 0 <= k < |s.frames| ==> FrameOk(s, s.frames[k]))
    && (forall j, k :: 0 <= j < k < |s.frames| ==> s.frames[j].id < s.frames[k].id)
    && (forall v: nat :: v in s.owner ==> v < s.nextValue)
    && (forall k :: 0 < k < |s.frames| && s.frames[k].returnReg.Some? ==>
          s.frames[k].returnReg.value < |s.frames[k - 1].slots|)
  }

  /** The callee's globals are allocated, not owned by a frame. */
  predicate GlobalsOk(s: State, p: Procedure) {
    forall i :: 0 <= i < |p.globals| ==> p.globals[i] in s.owner && s.owner[p.globals[i]].OfGlobals?
  }

  predicate Allowed(s: State, i: Instruction) {
    match i
    case Call(p) => GlobalsOk(s, p)
    case CallTo(_, p) => GlobalsOk(s, p)
    case CallWith(_, p, _, _) => GlobalsOk(s, p)
    case _ => true
  }

  /* ---- Freeing a frame ---- */

  predicate Own(owner: map<nat, Owner>, id: nat, slots: seq<Slot>, v: nat) {
    Val(v) in slots && v in owner && owner[v] == OfFrame(id)
  }

  predicate Once(owner: map<nat, Owner>, id: nat, slots: seq<Slot>) {
    && (forall i :: 0 <= i < |slots| && slots[i].Val? ==> slots[i].value in owner)
    && (forall i, j :: 0 <= i < j < |slots| && slots[i].Val? && slots[i] == slots[j] ==>
          owner[slots[i].value] != OfFrame(id))
  }

  /** Freeing succeeds, frees exactly the values the frame owns in these slots, each
      once, and leaves all others. */
  lemma {:induction false} FreeSlotsExact(owner: map<nat, Owner>, id: nat, slots: seq<Slot>)
    requires Once(owner, id, slots)
    ensures var f := FreeSlots(owner, id, slots);
      && f.Some?
      && (forall v: nat :: v in f.value.freed <==> Own(owner, id, slots, v))
      && (forall i, j :: 0 <= i < j < |f.value.freed| ==> f.value.freed[i] != f.value.freed[j])
      && (forall v: nat :: v in f.value.owner <==> v in owner && !Own(owner, id, slots, v))
      && (forall v: nat :: v in f.value.owner ==> f.value.owner[v] == owner[v])
  {
    if slots != [] {
      OwnRest(owner, id, slots);
      hide Own, Once;
      if slots[0].Val? && owner[slots[0].value] == OfFrame(id) {
        FreeSlotsExact(owner - {slots[0].value}, id, slots[1..]);
      } else {
        FreeSlotsExact(owner, id, slots[1..]);
      }
    }
  }

  /** What the frame owns in these slots: what the first one holds, and the rest. */
  lemma OwnRest(owner: map<nat, Owner>, id: nat, slots: seq<Slot>)
    requires slots != [] && Once(owner, id, slots)
    ensures slots[0].Val? ==> slots[0].value in owner
    ensures slots[0].Val? && owner[slots[0].value] == OfFrame(id) ==>
      var (v, left) := (slots[0].value, owner - {slots[0].value});
      && Once(left, id, slots[1..]) && !Own(left, id, slots[1..], v)
      && forall u: nat :: Own(owner, id, slots, u) <==> u == v || Own(left, id, slots[1..], u)
    ensures !(slots[0].Val? && owner[slots[0].value] == OfFrame(id)) ==>
      && Once(owner, id, slots[1..])
      && forall u: nat :: Own(owner, id, slots, u) <==> Own(owner, id, slots[1..], u)
  {
    var rest := slots[1..];
    assert slots == [slots[0]] + rest;
    assert forall j :: 0 <= j < |rest| ==> rest[j] == slots[j + 1];
  }

  /* ---- Each step keeps the invariant ---- */

  /** What every step keeps: the invariant, and the globals' values. */
  predicate Follows(s: State, t: State) {
    && Valid(t) && s.nextValue <= t.nextValue
    && (forall v: nat :: v in s.owner && s.owner[v].OfGlobals? ==> v in t.owner && t.owner[v] == s.owner[v])
  }

  /** Values are freed that were allocated, each once, and are not allocated after. */
  predicate FreedRight(s: State, t: State, freed: seq<nat>) {
    && (forall i :: 0 <= i < |freed| ==> freed[i] in s.owner && freed[i] !in t.owner)
    && (forall i, j :: 0 <= i < j < |freed| ==> freed[i] != freed[j])
    && (forall v: nat :: v in t.owner ==> v in s.owner || v >= s.nextValue)
  }

  lemma NewValueValid(s: State, id: nat)
    requires Valid(s)
    ensures var t := NewValue(s, id);
      Follows(s, t) && FreedRight(s, t, []) && t.frames == s.frames && t.nextFrame == s.nextFrame
  {
    var t := NewValue(s, id);
    forall k | 0 <= k < |t.frames| ensures FrameOk(t, t.frames[k]) {
      assert FrameOk(s, s.frames[k]);
      forall i | 0 <= i < |t.frames[k].slots| ensures SlotOk(t, t.frames[k], t.frames[k].slots[i]) {
        assert SlotOk(s, s.frames[k], s.frames[k].slots[i]);
      }
    }
  }

  /** A slot may point to a value that its frame does not hold yet, or to a shared one. */
  lemma SetSlotValid(s: State, k: nat, reg: nat, slot: Slot)
    requires Valid(s) && k < |s.frames| && reg < |s.frames[k].slots|
    requires SlotOk(s, s.frames[k], slot) && (slot !in s.frames[k].slots || Shareable(s, slot))
    ensures var t := SetSlot(s, k, reg, slot);
      Follows(s, t) && FreedRight(s, t, []) && |t.frames[k].slots| == |s.frames[k].slots|
  {
    var t := SetSlot(s, k, reg, slot);
    forall j | 0 <= j < |t.frames| ensures FrameOk(t, t.frames[j]) {
      assert FrameOk(s, s.frames[j]);
      forall i | 0 <= i < |t.frames[j].slots| ensures SlotOk(t, t.frames[j], t.frames[j].slots[i]) {
        assert j != k || i != reg ==> SlotOk(s, s.frames[j], s.frames[j].slots[i]);
      }
    }
  }

  /** Arguments for a new frame: allocated, owned by no later frame, without twins. */
  predicate ArgumentsOk(s: State, arguments: seq<Slot>) {
    && (forall i :: 0 <= i < |arguments| && arguments[i].Val? ==>
          arguments[i].value in s.owner
          && (s.owner[arguments[i].value].OfFrame? ==> s.owner[arguments[i].value].id <= s.nextFrame))
    && (forall i, j :: 0 <= i < j < |arguments| && arguments[i] == arguments[j] ==> Shareable(s, arguments[i]))
  }

  lemma OldFrames(s: State, t: State)
    requires Valid(s) && t.nextFrame >= s.nextFrame
    requires forall v: nat :: v in s.owner ==> v in t.owner && t.owner[v] == s.owner[v]
    ensures forall k :: 0 <= k < |s.frames| ==> FrameOk(t, s.frames[k])
  {
    forall k | 0 <= k < |s.frames| ensures FrameOk(t, s.frames[k]) {
      assert FrameOk(s, s.frames[k]);
      forall i | 0 <= i < |s.frames[k].slots| ensures SlotOk(t, s.frames[k], s.frames[k].slots[i]) {
        assert SlotOk(s, s.frames[k], s.frames[k].slots[i]);
      }
    }
  }

  /** The slots of a new frame: own locals, shared globals, checked arguments. */
  lemma NewFrameOk(s: State, p: Procedure, arguments: seq<Slot>, returnReg: Option<nat>)
    requires Valid(s) && GlobalsOk(s, p) && ArgumentsOk(s, arguments)
    ensures var t := Enter(s, p, arguments, returnReg); FrameOk(t, t.frames[|s.frames|])
  {
    var t := Enter(s, p, arguments, returnReg);
    var frame := t.frames[|s.frames|];
    var own := OwnSlots(s.nextValue, p);
    assert frame.slots == own + arguments && |own| == p.locals + |p.globals|;
    forall i | 0 <= i < p.locals ensures frame.slots[i] == Val(s.nextValue + i) {
      assert own[i] == Val(s.nextValue + i);
    }
    forall i | p.locals <= i < |own| ensures frame.slots[i] == Val(p.globals[i - p.locals]) {
      assert own[i] == Val(p.globals[i - p.locals]);
    }
    assert forall i :: |own| <= i < |frame.slots| ==> frame.slots[i] == arguments[i - |own|];
  }

  lemma EnterValid(s: State, p: Procedure, arguments: seq<Slot>, returnReg: Option<nat>)
    requires Valid(s) && GlobalsOk(s, p) && ArgumentsOk(s, arguments)
    requires returnReg.Some? ==> s.frames != [] && returnReg.value < |Top(s).slots|
    ensures var t := Enter(s, p, arguments, returnReg); Follows(s, t) && FreedRight(s, t, [])
  {
    var t := Enter(s, p, arguments, returnReg);
    NewFrameOk(s, p, arguments, returnReg);
    OldFrames(s, t);
    assert forall k :: 0 <= k < |s.frames| ==> t.frames[k] == s.frames[k];
  }

  lemma EnterPlainValid(s: State, p: Procedure, returnReg: Option<nat>)
    requires Valid(s) && GlobalsOk(s, p)
    requires returnReg.Some? ==> s.frames != [] && returnReg.value < |Top(s).slots|
    ensures var t := EnterPlain(s, p, returnReg); Follows(s, t) && FreedRight(s, t, [])
  {
    NewValueValid(s, s.nextFrame);
    EnterValid(NewValue(s, s.nextFrame), p, [Val(s.nextValue)], returnReg);
  }

  /** Freeing some values of the last frame, which hold no slot any more or go with it. */
  lemma FreedValid(s: State, t: State, freed: seq<nat>)
    requires Valid(s) && s.frames != [] && t.nextValue == s.nextValue && t.nextFrame == s.nextFrame
    requires |t.frames| <= |s.frames| && forall k :: 0 <= k < |t.frames| && k < |s.frames| - 1 ==> t.frames[k] == s.frames[k]
    requires |t.frames| == |s.frames| ==> FrameOk(t, Top(t)) && Top(t).id == Top(s).id && Top(t).returnReg == Top(s).returnReg
    requires forall v: nat :: v in t.owner <==> v in s.owner && v !in freed
    requires forall v: nat :: v in t.owner ==> t.owner[v] == s.owner[v]
    requires forall i :: 0 <= i < |freed| ==> freed[i] in s.owner && s.owner[freed[i]] == OfFrame(Top(s).id)
    requires forall i, j :: 0 <= i < j < |freed| ==> freed[i] != freed[j]
    ensures Follows(s, t) && FreedRight(s, t, freed)
  {
    forall v | v in freed ensures v in s.owner && s.owner[v] == OfFrame(Top(s).id) {
    }
    forall k | 0 <= k < |t.frames| ensures FrameOk(t, t.frames[k]) {
      if k < |s.frames| - 1 {
        assert FrameOk(s, s.frames[k]);
        forall i | 0 <= i < |t.frames[k].slots| ensures SlotOk(t, t.frames[k], t.frames[k].slots[i]) {
          assert SlotOk(s, s.frames[k], s.frames[k].slots[i]);
        }
      }
    }
  }

  lemma TopOnce(s: State)
    requires Valid(s) && s.frames != []
    ensures Once(s.owner, Top(s).id, Top(s).slots)
  {
    assert FrameOk(s, Top(s));
    forall i | 0 <= i < |Top(s).slots| && Top(s).slots[i].Val? ensures Top(s).slots[i].value in s.owner {
      assert SlotOk(s, Top(s), Top(s).slots[i]);
    }
  }

  /** Leaving a frame never follows a pointer to a freed value. */
  lemma LeaveValid(s: State)
    requires Valid(s) && s.frames != []
    ensures var r := Leave(s);
      && (r.Next? || r.Ended?) && Follows(s, r.state) && FreedRight(s, r.state, r.freed)
      && (r.Ended? <==> |s.frames| == 1)
  {
    TopOnce(s);
    FreeSlotsExact(s.owner, Top(s).id, Top(s).slots);
    var f := FreeSlots(s.owner, Top(s).id, Top(s).slots).value;
    var after := s.(frames := s.frames[..|s.frames| - 1], owner := f.owner);
    forall i | 0 <= i < |f.freed| ensures f.freed[i] in s.owner && s.owner[f.freed[i]] == OfFrame(Top(s).id) {
      assert f.freed[i] in f.freed && Own(s.owner, Top(s).id, Top(s).slots, f.freed[i]);
    }
    forall v: nat ensures v in f.owner <==> v in s.owner && v !in f.freed {
    }
    hide FreeSlots;
    FreedValid(s, after, f.freed);
  }

  lemma FollowsTrans(s: State, t: State, u: State, freed: seq<nat>)
    requires Follows(s, t) && FreedRight(s, t, []) && Follows(t, u) && FreedRight(t, u, freed)
    requires forall i :: 0 <= i < |freed| ==> freed[i] in s.owner
    ensures Follows(s, u) && FreedRight(s, u, freed)
  {
  }

  /** A value owned by the running frame is in no slot of its caller. */
  lemma NotInCaller(s: State, v: nat)
    requires Valid(s) && |s.frames| >= 2 && v in s.owner && s.owner[v] == OfFrame(Top(s).id)
    ensures Val(v) !in s.frames[|s.frames| - 2].slots
  {
    var k := |s.frames| - 2;
    assert FrameOk(s, s.frames[k]);
    forall i | 0 <= i < |s.frames[k].slots| ensures s.frames[k].slots[i] != Val(v) {
      assert SlotOk(s, s.frames[k], s.frames[k].slots[i]);
    }
  }

  /** A value owned by the running frame may be given to its caller. */
  lemma OwnerMoved(s: State, v: nat, id: nat)
    requires Valid(s) && v in s.owner && s.owner[v].OfFrame? && id <= s.owner[v].id
    ensures var t := s.(owner := s.owner[v := OfFrame(id)]); Follows(s, t) && FreedRight(s, t, [])
  {
    var t := s.(owner := s.owner[v := OfFrame(id)]);
    forall j | 0 <= j < |t.frames| ensures FrameOk(t, t.frames[j]) {
      assert FrameOk(s, s.frames[j]);
      forall i | 0 <= i < |t.frames[j].slots| ensures SlotOk(t, t.frames[j], t.frames[j].slots[i]) {
        assert SlotOk(s, s.frames[j], s.frames[j].slots[i]);
      }
    }
  }

  /** The running frame's own value, passed on to the caller. */
  lemma AdoptValid(s: State, v: nat)
    requires Valid(s) && HasReturnOk(s) && v in s.owner && s.owner[v] == OfFrame(Top(s).id)
    ensures Follows(s, HandOver(s, v)) && FreedRight(s, HandOver(s, v), [])
  {
    var k := |s.frames| - 2;
    var parent := s.frames[k].id;
    var t := s.(owner := s.owner[v := OfFrame(parent)]);
    NotInCaller(s, v);
    OwnerMoved(s, v, parent);
    assert SlotOk(t, t.frames[k], Val(v));
    hide SlotOk, FrameOk;
    SetSlotValid(t, k, Top(s).returnReg.value, Val(v));
    FollowsTrans(s, t, HandOver(s, v), []);
  }

  predicate HasReturnOk(s: State) {
    |s.frames| >= 2 && HasReturn(s)
  }

  /** A new value for the caller's result slot. */
  lemma NewResultValid(s: State)
    requires Valid(s) && HasReturnOk(s)
    ensures var k := |s.frames| - 2;
      var t := SetSlot(NewValue(s, s.frames[k].id), k, Top(s).returnReg.value, Val(s.nextValue));
      Follows(s, t) && FreedRight(s, t, [])
  {
    var k := |s.frames| - 2;
    var t := NewValue(s, s.frames[k].id);
    NewValueValid(s, s.frames[k].id);
    assert FrameOk(s, s.frames[k]);
    forall i | 0 <= i < |t.frames[k].slots| ensures t.frames[k].slots[i] != Val(s.nextValue) {
      assert SlotOk(s, s.frames[k], s.frames[k].slots[i]);
    }
    assert SlotOk(t, t.frames[k], Val(s.nextValue));
    SetSlotValid(t, k, Top(s).returnReg.value, Val(s.nextValue));
    FollowsTrans(s, t, SetSlot(t, k, Top(s).returnReg.value, Val(s.nextValue)), []);
  }

  lemma HandOverValid(s: State, reg: nat)
    requires Valid(s) && HasReturnOk(s) && reg < |Top(s).slots| && Top(s).slots[reg].Val?
    requires Top(s).slots[reg].value in s.owner
    ensures var t := HandOver(s, Top(s).slots[reg].value);
      Follows(s, t) && FreedRight(s, t, []) && t.frames != []
  {
    var v := Top(s).slots[reg].value;
    if s.owner[v] == OfFrame(Top(s).id) { AdoptValid(s, v); } else { NewResultValid(s); }
  }

  /** Leaving after a result has been handed over. */
  lemma LeaveAfter(s: State, t: State)
    requires Follows(s, t) && FreedRight(s, t, []) && t.frames != [] && |t.frames| == |s.frames|
    requires forall v: nat :: v in t.owner && v !in s.owner ==> t.owner[v] != OfFrame(Top(t).id)
    ensures var r := Leave(t);
      (r.Next? || r.Ended?) && Follows(s, r.state) && FreedRight(s, r.state, r.freed)
  {
    LeaveValid(t);
    TopOnce(t);
    FreeSlotsExact(t.owner, Top(t).id, Top(t).slots);
    var r := Leave(t);
    forall i | 0 <= i < |r.freed| ensures r.freed[i] in s.owner {
      assert r.freed[i] in r.freed && Own(t.owner, Top(t).id, Top(t).slots, r.freed[i]);
    }
    hide Leave, FreeSlots;
    FollowsTrans(s, t, r.state, r.freed);
  }

  /** Freeing and clearing one register before a call. */
  lemma ClearValid(s: State, reg: nat)
    requires Valid(s) && s.frames != [] && reg < |Top(s).slots|
    ensures var f := FreeSlots(s.owner, Top(s).id, [Top(s).slots[reg]]);
      && f.Some? && |Top(Emptied(s, reg, f.value.owner)).slots| == |Top(s).slots|
      && Emptied(s, reg, f.value.owner).frames != []
      && var t := Emptied(s, reg, f.value.owner);
         Follows(s, t) && FreedRight(s, t, f.value.freed)
  {
    var k, one := |s.frames| - 1, [Top(s).slots[reg]];
    assert FrameOk(s, Top(s)) && SlotOk(s, Top(s), Top(s).slots[reg]);
    assert Once(s.owner, Top(s).id, one);
    FreeSlotsExact(s.owner, Top(s).id, one);
    var f := FreeSlots(s.owner, Top(s).id, one).value;
    var t := SetSlot(s, k, reg, Null).(owner := f.owner);
    forall i | 0 <= i < |f.freed| ensures f.freed[i] in s.owner && s.owner[f.freed[i]] == OfFrame(Top(s).id) {
      assert f.freed[i] in f.freed && Own(s.owner, Top(s).id, one, f.freed[i]);
    }
    forall v: nat ensures v in f.owner <==> v in s.owner && v !in f.freed {
    }
    hide FreeSlots;
    ClearedFrame(s, t, reg, f.freed);
    FreedValid(s, t, f.freed);
  }

  lemma ClearedFrame(s: State, t: State, reg: nat, freed: seq<nat>)
    requires Valid(s) && s.frames != [] && reg < |Top(s).slots|
    requires t == SetSlot(s, |s.frames| - 1, reg, Null).(owner := t.owner)
    requires forall v: nat :: v in t.owner <==> v in s.owner && v !in freed
    requires forall v: nat :: v in t.owner ==> t.owner[v] == s.owner[v]
    requires forall v: nat :: v in freed ==> Own(s.owner, Top(s).id, [Top(s).slots[reg]], v)
    ensures FrameOk(t, Top(t))
  {
    var old' := Top(s);
    assert FrameOk(s, old');
    forall i | 0 <= i < |Top(t).slots| ensures SlotOk(t, Top(t), Top(t).slots[i]) {
      if i != reg {
        assert SlotOk(s, old', old'.slots[i]) && Top(t).slots[i] == old'.slots[i];
        OtherSlot(s, old', i, reg);
      }
    }
  }

  /** No other slot of the frame holds a value that a frame owns. */
  lemma OtherSlot(s: State, frame: Frame, i: nat, reg: nat)
    requires FrameOk(s, frame) && i < |frame.slots| && reg < |frame.slots| && i != reg
    ensures frame.slots[i] == frame.slots[reg] ==> Shareable(s, frame.slots[i])
  {
  }

  lemma SwapValid(s: State, a: nat, b: nat)
    requires Valid(s) && s.frames != [] && a < |Top(s).slots| && b < |Top(s).slots|
    ensures var k := |s.frames| - 1;
      var t := SetSlot(SetSlot(s, k, a, Top(s).slots[b]), k, b, Top(s).slots[a]);
      Follows(s, t) && FreedRight(s, t, [])
  {
    var k := |s.frames| - 1;
    var t := SetSlot(SetSlot(s, k, a, Top(s).slots[b]), k, b, Top(s).slots[a]);
    var x, y := Top(s).slots, t.frames[k].slots;
    assert y == x[a := x[b]][b := x[a]];
    assert FrameOk(s, Top(s));
    forall i | 0 <= i < |y| ensures SlotOk(t, t.frames[k], y[i]) {
      assert y[i] == x[Swapped(a, b, i)] && SlotOk(s, Top(s), x[Swapped(a, b, i)]);
    }
    forall i, j | 0 <= i < j < |y| && y[i] == y[j] ensures Shareable(t, y[i]) {
      var p, q := Swapped(a, b, i), Swapped(a, b, j);
      assert y[i] == x[p] && y[j] == x[q] && p != q;
      assert Shareable(s, x[if p < q then p else q]);
    }
    forall j | 0 <= j < |t.frames| && j != k ensures FrameOk(t, t.frames[j]) {
      assert FrameOk(s, s.frames[j]);
      assert forall i :: 0 <= i < |s.frames[j].slots| && SlotOk(s, s.frames[j], s.frames[j].slots[i]) ==>
        SlotOk(t, s.frames[j], s.frames[j].slots[i]);
    }
  }

  function Swapped(a: nat, b: nat, i: nat): nat {
    if i == a then b else if i == b then a else i
  }

  /* ---- Every instruction, every run ---- */

  predicate Running(r: Outcome) { r.Next? || r.Ended? }

  /** The step faults, or keeps the invariant and frees correctly. */
  predicate StepOk(s: State, i: Instruction) {
    var r := Step(s, i);
    r.Fault? || (Running(r) && Follows(s, r.state) && FreedRight(s, r.state, r.freed))
  }

  lemma CallToValid(s: State, reg: nat, p: Procedure)
    requires Valid(s) && s.frames != [] && GlobalsOk(s, p)
    ensures StepOk(s, CallTo(reg, p))
  {
    if reg < |Top(s).slots| {
      hide Valid, Follows, FreedRight, FreeSlots, EnterPlain, GlobalsOk, Emptied;
      ClearValid(s, reg);
      var f := FreeSlots(s.owner, Top(s).id, [Top(s).slots[reg]]).value;
      var t := Emptied(s, reg, f.owner);
      Cleared(s, t, p);
      EnterPlainValid(t, p, Some(reg));
      CallFollows(s, t, EnterPlain(t, p, Some(reg)), f.freed);
    }
  }

  lemma Cleared(s: State, t: State, p: Procedure)
    requires Follows(s, t) && GlobalsOk(s, p)
    ensures Valid(t) && GlobalsOk(t, p)
  {
  }

  lemma CallFollows(s: State, t: State, u: State, freed: seq<nat>)
    requires Follows(s, t) && FreedRight(s, t, freed) && Follows(t, u) && FreedRight(t, u, [])
    requires Valid(s)
    ensures Follows(s, u) && FreedRight(s, u, freed)
  {
  }

  /** After the first register is cleared, the pointer changes place with its null. */
  lemma MoveValid(s: State, a: nat, b: nat)
    requires Valid(s) && s.frames != []
    ensures StepOk(s, Move(a, b))
  {
    if a < |Top(s).slots| && b < |Top(s).slots| {
      hide Valid, Follows, FreedRight, FreeSlots, Emptied;
      ClearValid(s, a);
      var f := FreeSlots(s.owner, Top(s).id, [Top(s).slots[a]]).value;
      var t := Emptied(s, a, f.owner);
      Cleared(s, t, Procedure(0, []));
      MovedIs(s, a, b, f.owner);
      if a == b {
        Unchanged(t);
      } else {
        SwapValid(t, a, b);
      }
      CallFollows(s, t, Moved(t, a, b, Top(s).slots[b]), f.freed);
    }
  }

  lemma MovedIs(s: State, a: nat, b: nat, owner: map<nat, Owner>)
    requires s.frames != [] && a < |Top(s).slots| && b < |Top(s).slots|
    ensures var t, k := Emptied(s, a, owner), |s.frames| - 1;
      && |t.frames| == |s.frames| && |Top(t).slots| == |Top(s).slots|
      && Moved(t, a, b, Top(s).slots[b])
           == (if a == b then t else SetSlot(SetSlot(t, k, a, Top(t).slots[b]), k, b, Top(t).slots[a]))
  {
    var t, k := Emptied(s, a, owner), |s.frames| - 1;
    if a == b {
      var x := Top(s).slots;
      var u := Moved(t, a, b, x[b]);
      assert x[a := Null][a := x[a]][a := Null] == x[a := Null];
      assert u.frames[k] == t.frames[k];
      assert u.frames == t.frames;
    }
  }

  lemma SlotAllocated(s: State, reg: nat)
    requires Valid(s) && s.frames != [] && reg < |Top(s).slots|
    ensures Top(s).slots[reg].Val? ==> Top(s).slots[reg].value in s.owner
  {
    assert FrameOk(s, Top(s)) && SlotOk(s, Top(s), Top(s).slots[reg]);
  }

  lemma CallWithValid(s: State, reg: nat, p: Procedure, argument: nat, count: nat)
    requires Valid(s) && s.frames != [] && GlobalsOk(s, p)
    ensures StepOk(s, CallWith(reg, p, argument, count))
  {
    hide Enter, GlobalsOk, Valid, Follows, FreedRight, FreeSlots;
    if !Step(s, CallWith(reg, p, argument, count)).Fault? {
      SlotAllocated(s, argument);
      ArgumentsValid(s, reg, p, argument, count);
    }
  }

  lemma ArgumentsValid(s: State, reg: nat, p: Procedure, argument: nat, count: nat)
    requires Valid(s) && s.frames != [] && reg < |Top(s).slots| && argument + count < |Top(s).slots|
    requires GlobalsOk(s, p)
    ensures var t := Enter(s, p, Top(s).slots[argument..argument + count + 1], Some(reg));
      Follows(s, t) && FreedRight(s, t, [])
  {
    var x := Top(s).slots;
    var arguments := x[argument..argument + count + 1];
    assert FrameOk(s, Top(s));
    forall i | 0 <= i < |arguments| && arguments[i].Val?
      ensures arguments[i].value in s.owner
        && (s.owner[arguments[i].value].OfFrame? ==> s.owner[arguments[i].value].id <= s.nextFrame)
    {
      assert SlotOk(s, Top(s), x[argument + i]);
    }
    forall i, j | 0 <= i < j < |arguments| && arguments[i] == arguments[j] ensures Shareable(s, arguments[i]) {
      OtherSlot(s, Top(s), argument + i, argument + j);
    }
    EnterValid(s, p, arguments, Some(reg));
  }

  lemma RetRegValid(s: State, reg: nat)
    requires Valid(s) && s.frames != []
    ensures StepOk(s, RetReg(reg))
  {
    if !Step(s, RetReg(reg)).Fault? {
      assert FrameOk(s, Top(s)) && SlotOk(s, Top(s), Top(s).slots[reg]);
      hide Leave, FrameOk, HandOver;
      if HasReturn(s) {
        HandOverValid(s, reg);
        HandOverFrames(s, Top(s).slots[reg].value);
        LeaveAfter(s, HandOver(s, Top(s).slots[reg].value));
      } else {
        LeaveValid(s);
      }
    }
  }

  lemma HandOverFrames(s: State, v: nat)
    requires Valid(s) && HasReturnOk(s) && v in s.owner
    ensures var t := HandOver(s, v);
      && |t.frames| == |s.frames|
      && forall x: nat :: x in t.owner && x !in s.owner ==> t.owner[x] != OfFrame(Top(t).id)
  {
    assert s.frames[|s.frames| - 2].id < Top(s).id;
  }

  lemma RetConstantValid(s: State)
    requires Valid(s) && s.frames != []
    ensures StepOk(s, RetConstant)
  {
    hide Leave, SlotOk, FrameOk;
    if HasReturn(s) {
      NewResultValid(s);
      var k := |s.frames| - 2;
      assert s.frames[k].id < Top(s).id;
      LeaveAfter(s, SetSlot(NewValue(s, s.frames[k].id), k, Top(s).returnReg.value, Val(s.nextValue)));
    } else {
      LeaveValid(s);
    }
  }

  lemma SimpleValid(s: State, i: Instruction)
    requires Valid(s) && s.frames != [] && Allowed(s, i)
    requires i.Call? || i.Ret? || i.Swap? || i.Use?
    ensures StepOk(s, i)
  {
    hide Leave, Enter, EnterPlain, Follows, FreedRight;
    match i
    case Call(p) => EnterPlainValid(s, p, None);
    case Ret => LeaveValid(s);
    case Swap(a, b) => if a < |Top(s).slots| && b < |Top(s).slots| { SwapValid(s, a, b); }
    case Use(reg) =>
      if reg < |Top(s).slots| {
        assert FrameOk(s, Top(s)) && SlotOk(s, Top(s), Top(s).slots[reg]);
        Unchanged(s);
      }
  }

  lemma Unchanged(s: State)
    requires Valid(s)
    ensures Follows(s, s) && FreedRight(s, s, [])
  {
  }

  /** No instruction follows a pointer to a value that is gone; values are freed once,
      while allocated; and the invariant holds again. */
  lemma StepValid(s: State, i: Instruction)
    requires Valid(s) && Allowed(s, i)
    ensures StepOk(s, i)
  {
    if s.frames != [] {
      hide StepOk, Valid;
      match i
      case CallTo(reg, p) => CallToValid(s, reg, p);
      case CallWith(reg, p, argument, count) => CallWithValid(s, reg, p, argument, count);
      case RetReg(reg) => RetRegValid(s, reg);
      case Move(a, b) => MoveValid(s, a, b);
      case RetConstant => RetConstantValid(s);
      case _ => SimpleValid(s, i);
    }
  }

  /** Running a list of instructions; the freed values in order. A fault or the end
      stops the run. */
  function Run(s: State, code: seq<Instruction>): Outcome
    decreases |code|
  {
    if code == [] then Next(s, [])
    else
      var r := Step(s, code[0]);
      if !r.Next? then r
      else
        var rest := Run(r.state, code[1..]);
        if rest.Next? then Next(rest.state, r.freed + rest.freed)
        else if rest.Ended? then Ended(rest.state, r.freed + rest.freed)
        else rest
  }

  /** All procedures are linked to the same allocated globals. */
  predicate AllAllowed(s: State, code: seq<Instruction>) {
    forall k :: 0 <= k < |code| ==> Allowed(s, code[k])
  }

  lemma AllowedLater(s: State, t: State, code: seq<Instruction>)
    requires AllAllowed(s, code) && Follows(s, t)
    ensures AllAllowed(t, code)
  {
    forall k | 0 <= k < |code| ensures Allowed(t, code[k]) {
      assert Allowed(s, code[k]);
    }
  }

  /** Over a run: no value is freed twice, each freed value was allocated before the run
      or in it, and none is allocated at the end. */
  predicate FreedInRun(s: State, t: State, freed: seq<nat>) {
    && (forall i, j :: 0 <= i < j < |freed| ==> freed[i] != freed[j])
    && (forall i :: 0 <= i < |freed| ==>
          (freed[i] in s.owner || s.nextValue <= freed[i] < t.nextValue) && freed[i] !in t.owner)
    && (forall v: nat :: v in t.owner ==> v in s.owner || v >= s.nextValue)
  }

  lemma FreedJoin(s: State, t: State, u: State, x: seq<nat>, y: seq<nat>)
    requires Valid(s) && Follows(s, t) && FreedRight(s, t, x) && Follows(t, u) && FreedInRun(t, u, y)
    ensures Follows(s, u) && FreedInRun(s, u, x + y)
  {
    forall i, j | 0 <= i < |x| && 0 <= j < |y| ensures x[i] != y[j] {
    }
  }

  lemma FreedNone(s: State)
    requires Valid(s)
    ensures Follows(s, s) && FreedInRun(s, s, [])
  {
  }

  lemma FreedOnce(s: State, t: State, freed: seq<nat>)
    requires Valid(s) && Follows(s, t) && FreedRight(s, t, freed)
    ensures FreedInRun(s, t, freed)
  {
  }

  /** The slot points to an allocated value, and if that is the frame's own no other slot
      of the frame does. */
  predicate SlotLive(s: State, frame: Frame, i: nat)
    requires i < |frame.slots| && frame.slots[i].Val?
  {
    var v := frame.slots[i].value;
    v in s.owner && (s.owner[v] == OfFrame(frame.id) ==>
      forall j :: 0 <= j < |frame.slots| && j != i ==> frame.slots[j] != Val(v))
  }

  predicate SlotsLive(s: State) {
    forall k, i :: 0 <= k < |s.frames| && 0 <= i < |s.frames[k].slots| && s.frames[k].slots[i].Val? ==>
      SlotLive(s, s.frames[k], i)
  }

  lemma ValidLive(s: State)
    requires Valid(s)
    ensures SlotsLive(s)
  {
    forall k, i | 0 <= k < |s.frames| && 0 <= i < |s.frames[k].slots| && s.frames[k].slots[i].Val?
      ensures SlotLive(s, s.frames[k], i)
    {
      assert FrameOk(s, s.frames[k]) && SlotOk(s, s.frames[k], s.frames[k].slots[i]);
    }
  }

  /** In every run no pointer to a freed value is followed, no value is freed twice, and
      every slot of every frame points to an allocated value at the end. */
  lemma {:induction false} RunValid(s: State, code: seq<Instruction>)
    requires Valid(s) && AllAllowed(s, code)
    ensures var r := Run(s, code);
      r.Fault? || (Running(r) && Follows(s, r.state) && SlotsLive(r.state) && FreedInRun(s, r.state, r.freed))
    decreases |code|
  {
    hide SlotsLive;
    if code == [] {
      FreedNone(s);
      ValidLive(s);
    } else {
      assert Allowed(s, code[0]);
      StepValid(s, code[0]);
      var r := Step(s, code[0]);
      hide Step, FreedRight, FreedInRun;
      if Running(r) {
        FreedOnce(s, r.state, r.freed);
        ValidLive(r.state);
      }
      if r.Next? {
        var rest := code[1..];
        assert forall k :: 0 <= k < |rest| ==> rest[k] == code[k + 1];
        AllowedLater(s, r.state, rest);
        RunValid(r.state, rest);
        var q := Run(r.state, rest);
        if Running(q) { FreedJoin(s, r.state, q.state, r.freed, q.freed); }
      }
    }
  }
}
