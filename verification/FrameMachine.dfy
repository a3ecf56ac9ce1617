/** The interpreter's handling of frames and values, instruction by instruction. */
module FrameMachine {
  import opened FrameValues
  import opened FrameSteps
  import opened FrameLeaks

  class Interpreter {
    var frames: seq<Frame>
    var owner: map<nat, Owner>
    var nextValue: nat
    var nextFrame: nat
    var freed: seq<nat> // every value freed so far, in order

    function Now(): State
      reads this
    {
      State(frames, owner, nextValue, nextFrame)
    }

    constructor (globals: nat)
      ensures Valid(Now()) && frames == [] && freed == [] && nextValue == globals
      ensures forall v: nat :: v in owner <==> v < globals
      ensures forall v: nat :: v in owner ==> owner[v] == OfGlobals(v)
    {
      frames, freed, nextFrame, nextValue := [], [], 0, globals;
      owner := map v | 0 <= v < globals :: OfGlobals(v);
    }

    /** Frees a value if the frame owns it. The value must still be allocated: its owner
        is read. */
    method FreeValue(id: nat, slot: Slot)
      requires slot.Val? ==> slot.value in owner
      modifies this`owner, this`freed
      ensures var f := FreeSlots(old(owner), id, [slot]);
        f.Some? && owner == f.value.owner && freed == old(freed) + f.value.freed
    {
      assert [slot][1..] == [];
      if slot.Val? && owner[slot.value] == OfFrame(id) {
        owner, freed := owner - {slot.value}, freed + [slot.value];
      }
    }

    /** Frees everything a frame owns, slot by slot. */
    method FreeFrame(frame: Frame)
      requires Once(owner, frame.id, frame.slots)
      modifies this`owner, this`freed
      ensures var f := FreeSlots(old(owner), frame.id, frame.slots);
        f.Some? && owner == f.value.owner && freed == old(freed) + f.value.freed
    {
      FreeBegin(owner, frame);
      hide FreeSlots, Once, Joined, Freed;
      ghost var before := owner;
      ghost var done: seq<nat> := [];
      var l := 0;
      while l < |frame.slots|
        invariant l <= |frame.slots| && freed == old(freed) + done
        invariant Freed(before, owner, frame, l, done)
      {
        FreeNext(before, owner, frame, l, done);
        ghost var one := FreeSlots(owner, frame.id, [frame.slots[l]]).value;
        FreeValue(frame.id, frame.slots[l]);
        done := done + one.freed;
        l := l + 1;
      }
      FreeEnd(before, owner, frame, done);
    }

    /** Slots for new values, owned by the frame. */
    method NewOwned(count: nat, id: nat) returns (slots: seq<Slot>)
      modifies this`owner, this`nextValue
      ensures nextValue == old(nextValue) + count
      ensures owner == WithNew(old(owner), old(nextValue), count, OfFrame(id))
      ensures slots == seq(count, i requires 0 <= i < count => Val(old(nextValue) + i))
    {
      slots := [];
      ghost var first := nextValue;
      NoneNew(owner, first, OfFrame(id));
      hide WithNew;
      var i := 0;
      while i < count
        invariant i <= count && nextValue == first + i
        invariant owner == WithNew(old(owner), first, i, OfFrame(id))
        invariant |slots| == i && forall k :: 0 <= k < i ==> slots[k] == Val(first + k)
      {
        OneNew(old(owner), first, i, OfFrame(id));
        owner := owner[nextValue := OfFrame(id)];
        slots := slots + [Val(nextValue)];
        nextValue := nextValue + 1;
        i := i + 1;
      }
    }

    /** A frame with new locals, the module's globals and room for arguments. */
    method NewFrame(p: Procedure, arguments: seq<Slot>, returnReg: Option<nat>) returns (frame: Frame)
      modifies this`owner, this`nextValue, this`nextFrame
      ensures var t := Enter(old(Now()), p, arguments, returnReg);
        && frame == t.frames[|old(frames)|] && owner == t.owner
        && nextValue == t.nextValue && nextFrame == t.nextFrame
    {
      var id := nextFrame;
      nextFrame := nextFrame + 1;
      ghost var first := nextValue;
      var slots := NewOwned(p.locals, id);
      hide WithNew;
      ghost var locals := slots;
      var j := 0;
      while j < |p.globals|
        invariant j <= |p.globals| && |slots| == p.locals + j && slots[..p.locals] == locals
        invariant forall k :: 0 <= k < j ==> slots[p.locals + k] == Val(p.globals[k])
      {
        slots := slots + [Val(p.globals[j])];
        j := j + 1;
      }
      assert slots == OwnSlots(first, p);
      frame := Frame(id, slots + arguments, returnReg);
    }

    /** Enters a procedure without arguments. */
    method EnterWithout(p: Procedure, returnReg: Option<nat>)
      modifies this
      ensures Now() == EnterPlain(old(Now()), p, returnReg) && freed == old(freed)
    {
      hide OwnSlots, WithNew;
      // the count of arguments is the callee's own value
      var count := nextValue;
      owner, nextValue := owner[nextValue := OfFrame(nextFrame)], nextValue + 1;
      var frame := NewFrame(p, [Val(count)], returnReg);
      frames := frames + [frame];
    }

    /** The main program's frame: behind locals and globals the number of arguments and
        the arguments, all its own. */
    method Start(p: Procedure, argc: nat)
      requires Valid(Now()) && frames == [] && GlobalsOk(Now(), p)
      modifies this
      ensures Valid(Now()) && freed == old(freed)
      ensures Follows(old(Now()), Now()) && Entered(old(Now()), Now(), p, None)
      ensures var first := p.locals + |p.globals|;
        && |frames[0].slots| == first + argc + 1
        && forall k :: first <= k <= first + argc ==> Fresh(old(Now()), Now(), frames[0].slots[k], frames[0].id)
      ensures old(Kept(Now())) ==> Kept(Now())
    {
      hide Follows, Valid, Enter, Entered, Fresh, Kept;
      ghost var s := Now();
      var arguments := NewOwned(argc + 1, nextFrame);
      ghost var t := Now();
      NewFollows(s, argc + 1);
      NewOwn(s, t, p, arguments);
      Cleared(s, t, p);
      EnterValid(t, p, arguments, None);
      EnterIs(t, p, arguments, None);
      var frame := NewFrame(p, arguments, None);
      frames := [frame];
      OneFrame(t, p, arguments);
      assert Now() == Enter(t, p, arguments, None);
      StartedIs(s, t, Now(), p, arguments);
      if Kept(s) { StartedKept(s, t, p, arguments); }
      FollowsOn(s, t, Now());
    }

    method SetRegister(k: nat, reg: nat, slot: Slot)
      requires k < |frames| && reg < |frames[k].slots|
      modifies this`frames
      ensures Now() == SetSlot(old(Now()), k, reg, slot)
    {
      frames := frames[k := frames[k].(slots := frames[k].slots[reg := slot])];
    }

    /** Back to the caller; the frame left frees what it owns. */
    method LeaveFrame()
      requires Valid(Now()) && frames != []
      modifies this
      ensures var r := Leave(old(Now()));
        Running(r) && Now() == r.state && freed == old(freed) + r.freed
    {
      LeaveValid(Now());
      TopOnce(Now());
      var top := frames[|frames| - 1];
      FreeFrame(top);
      frames := frames[..|frames| - 1];
    }

    /** A value of the caller's own in the result slot. */
    method NewResult()
      requires Valid(Now()) && HasReturnOk(Now())
      modifies this`frames, this`owner, this`nextValue
      ensures var s := old(Now());
        var k := |s.frames| - 2;
        Now() == SetSlot(NewValue(s, s.frames[k].id), k, Top(s).returnReg.value, Val(s.nextValue))
    {
      var k := |frames| - 2;
      var v := nextValue;
      owner, nextValue := owner[v := OfFrame(frames[k].id)], nextValue + 1;
      SetRegister(k, frames[k + 1].returnReg.value, Val(v));
    }

    /** Puts the returned value into the caller's slot: the value itself if the running
        frame owns it, else a copy. */
    method Deliver(v: nat)
      requires Valid(Now()) && HasReturnOk(Now()) && v in owner
      modifies this`frames, this`owner, this`nextValue
      ensures Now() == HandOver(old(Now()), v)
    {
      var k := |frames| - 1;
      if owner[v] != OfFrame(frames[k].id) {
        NewResult();
      } else {
        var reg := frames[k].returnReg.value;
        owner := owner[v := OfFrame(frames[k - 1].id)];
        SetRegister(k - 1, reg, Val(v));
      }
    }

    method ReturnRegister(reg: nat) returns (fault: bool)
      requires Valid(Now()) && frames != []
      modifies this
      ensures Done(old(Now()), RetReg(reg), fault, Now(), old(freed), freed)
    {
      hide HandOver, Leave, Valid, FrameOk, SlotOk;
      RetRegValid(Now(), reg);
      var k := |frames| - 1;
      var top := frames[k];
      if reg >= |top.slots| { return true; }
      var wanted := HasReturn(Now());
      if top.slots[reg].Null? && (wanted || k == 0) { return true; }
      SlotAllocated(Now(), reg);
      if wanted {
        HandOverValid(Now(), reg);
        FollowsValid(Now(), HandOver(Now(), top.slots[reg].value));
        Deliver(top.slots[reg].value);
      }
      LeaveFrame();
      fault := false;
    }

    method ReturnConstant()
      requires Valid(Now()) && frames != []
      modifies this
      ensures Done(old(Now()), RetConstant, false, Now(), old(freed), freed)
    {
      hide Leave, Valid, FrameOk, SlotOk;
      RetConstantValid(Now());
      if HasReturn(Now()) {
        NewResultValid(Now());
        ghost var s := Now();
        NewResult();
        FollowsValid(s, Now());
      }
      LeaveFrame();
    }

    method CallTwo(reg: nat, p: Procedure) returns (fault: bool)
      requires Valid(Now()) && frames != [] && GlobalsOk(Now(), p)
      modifies this
      ensures Done(old(Now()), CallTo(reg, p), fault, Now(), old(freed), freed)
    {
      CallToValid(Now(), reg, p);
      var k := |frames| - 1;
      if reg >= |frames[k].slots| { return true; }
      SlotAllocated(Now(), reg);
      FreeValue(frames[k].id, frames[k].slots[reg]);
      SetRegister(k, reg, Null);
      EnterWithout(p, Some(reg));
      fault := false;
    }

    method CallThree(reg: nat, p: Procedure, argument: nat, count: nat) returns (fault: bool)
      requires Valid(Now()) && frames != [] && GlobalsOk(Now(), p)
      modifies this
      ensures Done(old(Now()), CallWith(reg, p, argument, count), fault, Now(), old(freed), freed)
    {
      CallWithValid(Now(), reg, p, argument, count);
      var top := frames[|frames| - 1];
      if reg >= |top.slots| || argument + count >= |top.slots| || top.slots[argument].Null? { return true; }
      SlotAllocated(Now(), argument);
      var frame := NewFrame(p, top.slots[argument..argument + count + 1], Some(reg));
      frames := frames + [frame];
      fault := false;
    }

    /** Moves a register: what the first one held is freed if it is the frame's own. */
    method MoveRegister(a: nat, b: nat) returns (fault: bool)
      requires Valid(Now()) && frames != []
      modifies this
      ensures Done(old(Now()), Move(a, b), fault, Now(), old(freed), freed)
    {
      hide Valid, FrameOk, SlotOk;
      ghost var s := Now();
      var k := |frames| - 1;
      var top := frames[k];
      if a >= |top.slots| || b >= |top.slots| { return true; }
      SlotAllocated(Now(), a);
      FreeValue(top.id, top.slots[a]);
      SetRegister(k, a, top.slots[b]);
      SetRegister(k, b, Null);
      MovedTwice(s, a, b, owner);
      fault := false;
    }

    /** One instruction: what it frees and where it leaves every frame and value. */
    method Execute(i: Instruction) returns (fault: bool)
      requires Valid(Now()) && Allowed(Now(), i) && frames != []
      modifies this
      ensures Done(old(Now()), i, fault, Now(), old(freed), freed)
      ensures !fault ==> Valid(Now())
    {
      StepValid(Now(), i);
      hide Valid, Leave, EnterPlain, Enter, FreeSlots;
      fault := false;
      match i {
        case Call(p) => EnterWithout(p, None);
        case CallTo(reg, p) => fault := CallTwo(reg, p);
        case CallWith(reg, p, argument, count) => fault := CallThree(reg, p, argument, count);
        case Ret => LeaveFrame();
        case RetReg(reg) => fault := ReturnRegister(reg);
        case RetConstant => ReturnConstant();
        case Swap(a, b) =>
          var k := |frames| - 1;
          if a >= |frames[k].slots| || b >= |frames[k].slots| { return true; }
          var temp := frames[k].slots[a];
          SetRegister(k, a, frames[k].slots[b]);
          SetRegister(k, b, temp);
        case Move(a, b) => fault := MoveRegister(a, b);
        case Use(reg) =>
          var k := |frames| - 1;
          fault := reg >= |frames[k].slots| || frames[k].slots[reg].Null?;
      }
    }

    /** The end of the program: the frames that are left are freed, the last one first,
        and then the globals. Nothing stays allocated if every value was in a slot of its
        owner. */
    method Finish(globals: nat)
      requires Valid(Now()) && globals <= nextValue
      requires forall v: nat :: v < globals ==> v in owner && owner[v] == OfGlobals(v)
      requires forall i :: 0 <= i < |freed| ==> freed[i] !in owner
      requires forall i, j :: 0 <= i < j < |freed| ==> freed[i] != freed[j]
      modifies this
      ensures frames == []
      ensures forall v: nat :: v < globals ==> v !in owner && v in freed
      ensures forall i, j :: 0 <= i < j < |freed| ==> freed[i] != freed[j]
      ensures |freed| >= globals && freed[|freed| - globals..] == Counting(globals)
      ensures old(Kept(Now()) && AllFrames(owner, globals)) ==> owner == map[]
    {
      ghost var kept := Kept(Now()) && AllFrames(owner, globals);
      while frames != []
        invariant Valid(Now()) && globals <= nextValue
        invariant kept ==> Kept(Now()) && AllFrames(owner, globals)
        invariant forall v: nat :: v < globals ==> v in owner && owner[v] == OfGlobals(v)
        invariant forall i :: 0 <= i < |freed| ==> freed[i] !in owner
        invariant forall i, j :: 0 <= i < j < |freed| ==> freed[i] != freed[j]
        decreases |frames|
      {
        ghost var s, before := Now(), freed;
        LeaveValid(s);
        if kept { LeaveAll(s, globals); }
        LeaveFrame();
        FinishOn(s, before, freed, owner);
      }
      ghost var before := freed;
      if kept { OnlyGlobals(Now(), globals); }
      FreeGlobals(globals);
      FreedTwo(before, globals);
    }

    method FreeGlobals(globals: nat)
      requires forall v: nat :: v < globals ==> v in owner
      modifies this`owner, this`freed
      ensures freed == old(freed) + Counting(globals)
      ensures forall v: nat :: v in owner <==> v in old(owner) && v >= globals
    {
      var g := 0;
      while g < globals
        invariant g <= globals && freed == old(freed) + Counting(g)
        invariant forall v: nat :: v in owner <==> v in old(owner) && v >= g
      {
        assert Counting(g + 1) == Counting(g) + [g];
        owner, freed := owner - {g}, freed + [g];
        g := g + 1;
      }
    }
  }

  function Counting(n: nat): seq<nat> { seq(n, k => k) }

  lemma OnlyGlobals(s: State, globals: nat)
    requires Kept(s) && AllFrames(s.owner, globals) && s.frames == []
    ensures forall v: nat :: v in s.owner ==> v < globals
  {
  }

  /** What was freed before was no global's. */
  lemma FreedTwo(before: seq<nat>, globals: nat)
    requires forall i, j :: 0 <= i < j < |before| ==> before[i] != before[j]
    requires forall i :: 0 <= i < |before| ==> before[i] >= globals
    ensures var all := before + Counting(globals);
      && (forall i, j :: 0 <= i < j < |all| ==> all[i] != all[j])
      && (forall v: nat :: v < globals ==> v in all) && all[|all| - globals..] == Counting(globals)
  {
    var all := before + Counting(globals);
    forall v: nat | v < globals ensures v in all {
      assert all[|before| + v] == v;
    }
  }

  /** What is no global's value is a frame's. */
  predicate AllFrames(owner: map<nat, Owner>, globals: nat) {
    forall v: nat :: v in owner && v >= globals ==> owner[v].OfFrame?
  }

  lemma LeaveAll(s: State, globals: nat)
    requires Valid(s) && s.frames != [] && Kept(s) && AllFrames(s.owner, globals)
    ensures var r := Leave(s); Running(r) && Kept(r.state) && AllFrames(r.state.owner, globals)
  {
    hide Leave, Kept, Valid;
    LeaveKept(s);
    LeaveIs(s);
  }

  lemma StartedIs(s: State, t: State, u: State, p: Procedure, arguments: seq<Slot>)
    requires Valid(s) && s.frames == [] && t.frames == [] && Follows(s, t) && Entered(t, u, p, None)
    requires Top(u).slots[p.locals + |p.globals|..] == arguments
    requires forall k :: 0 <= k < |arguments| ==> Fresh(s, u, arguments[k], Top(u).id)
    ensures Entered(s, u, p, None)
    ensures var first := p.locals + |p.globals|;
      forall k :: first <= k < first + |arguments| ==> Fresh(s, u, Top(u).slots[k], Top(u).id)
  {
    var first := p.locals + |p.globals|;
    forall k | first <= k < first + |arguments| ensures Top(u).slots[k] == arguments[k - first] {
      assert Top(u).slots[k] == Top(u).slots[first..][k - first];
    }
  }

  lemma {:induction false} NewFollows(s: State, n: nat)
    requires Valid(s)
    ensures Follows(s, s.(owner := WithNew(s.owner, s.nextValue, n, OfFrame(s.nextFrame)), nextValue := s.nextValue + n))
  {
    hide Valid, Follows;
    if n == 0 {
      FreedNone(s);
    } else {
      NewFollows(s, n - 1);
      var t := s.(owner := WithNew(s.owner, s.nextValue, n - 1, OfFrame(s.nextFrame)), nextValue := s.nextValue + n - 1);
      FollowsValid(s, t);
      NewValueValid(t, s.nextFrame);
      FollowsOn(s, t, NewValue(t, s.nextFrame));
    }
  }

  lemma OneFrame(t: State, p: Procedure, arguments: seq<Slot>)
    requires t.frames == []
    ensures var u := Enter(t, p, arguments, None); u.frames == [u.frames[0]] && Top(u).id == t.nextFrame
  {
  }

  /** The arguments are values of the frame to come. */
  lemma NewOwn(s: State, t: State, p: Procedure, arguments: seq<Slot>)
    requires Valid(s) && Follows(s, t) && s.nextValue + |arguments| == t.nextValue
    requires forall k :: 0 <= k < |arguments| ==> arguments[k] == Val(s.nextValue + k)
    requires forall v: nat :: s.nextValue <= v < t.nextValue ==> v in t.owner && t.owner[v] == OfFrame(t.nextFrame)
    ensures ArgumentsOk(t, arguments)
    ensures forall k :: 0 <= k < |arguments| ==> Fresh(s, Enter(t, p, arguments, None), arguments[k], t.nextFrame)
  {
    hide FrameOk, Follows;
  }

  lemma StartedKept(s: State, t: State, p: Procedure, arguments: seq<Slot>)
    requires Kept(s) && s.frames == [] && t.frames == [] && Valid(t) && s.nextValue + |arguments| == t.nextValue
    requires forall k :: 0 <= k < |arguments| ==> arguments[k] == Val(s.nextValue + k)
    requires forall v: nat :: s.nextValue <= v < t.nextValue ==> v in t.owner && t.owner[v] == OfFrame(t.nextFrame)
    requires forall v: nat :: v in t.owner && v < s.nextValue ==> v in s.owner && t.owner[v] == s.owner[v]
    ensures Kept(Enter(t, p, arguments, None))
  {
    forall v: nat | v in t.owner && t.owner[v].OfFrame? ensures t.owner[v].id == t.nextFrame && Val(v) in arguments {
      if v < s.nextValue {
        assert false;
      }
      assert arguments[v - s.nextValue] == Val(v);
    }
    EnterKept(t, p, arguments, None);
  }

  lemma NoneNew(owner: map<nat, Owner>, first: nat, by': Owner)
    ensures WithNew(owner, first, 0, by') == owner
  {
  }

  lemma OneNew(owner: map<nat, Owner>, first: nat, n: nat, by': Owner)
    ensures WithNew(owner, first, n + 1, by') == WithNew(owner, first, n, by')[first + n := by']
  {
  }

  lemma MovedTwice(s: State, a: nat, b: nat, owner: map<nat, Owner>)
    requires s.frames != [] && a < |Top(s).slots| && b < |Top(s).slots|
    ensures Moved(Emptied(s, a, owner), a, b, Top(s).slots[b]) == Moved(s.(owner := owner), a, b, Top(s).slots[b])
  {
    var k, x := |s.frames| - 1, Top(s).slots;
    assert x[a := Null][a := x[b]] == x[a := x[b]];
    assert Moved(Emptied(s, a, owner), a, b, x[b]).frames == Moved(s.(owner := owner), a, b, x[b]).frames;
  }

  lemma FollowsValid(s: State, t: State)
    requires Follows(s, t)
    ensures Valid(t)
  {
  }

  lemma FollowsOn(s: State, t: State, u: State)
    requires Follows(s, t) && Follows(t, u)
    ensures Follows(s, u) && Valid(u)
  {
  }

  function Joined(done: seq<nat>, rest: Option<Freeing>): Option<Freeing> {
    if rest.None? then None else Some(Freeing(rest.value.owner, done + rest.value.freed))
  }

  lemma FreeOne(owner: map<nat, Owner>, id: nat, slot: Slot)
    requires slot.Val? ==> slot.value in owner
    ensures FreeSlots(owner, id, [slot]) == Some(
      if slot.Val? && owner[slot.value] == OfFrame(id) then Freeing(owner - {slot.value}, [slot.value])
      else Freeing(owner, []))
  {
    assert [slot][1..] == [];
    assert FreeSlots(owner, id, []) == Some(Freeing(owner, []));
    if slot.Val? {
      assert FreeSlots(owner - {slot.value}, id, []) == Some(Freeing(owner - {slot.value}, []));
      assert [slot.value] + [] == [slot.value];
    }
  }

  lemma FreeFirst(owner: map<nat, Owner>, id: nat, slots: seq<Slot>, done: seq<nat>)
    requires slots != [] && Once(owner, id, slots)
    ensures var one := FreeSlots(owner, id, [slots[0]]);
      && one.Some? && Once(one.value.owner, id, slots[1..])
      && Joined(done, FreeSlots(owner, id, slots))
           == Joined(done + one.value.freed, FreeSlots(one.value.owner, id, slots[1..]))
  {
    assert slots[0].Val? ==> slots[0].value in owner;
    FreeOne(owner, id, slots[0]);
    var rest := slots[1..];
    assert forall j :: 0 <= j < |rest| ==> rest[j] == slots[j + 1];
    var one := FreeSlots(owner, id, [slots[0]]).value;
    if slots[0].Val? && owner[slots[0].value] == OfFrame(id) {
      assert one == Freeing(owner - {slots[0].value}, [slots[0].value]);
      var f := FreeSlots(one.owner, id, rest);
      assert f.Some? ==> done + ([slots[0].value] + f.value.freed) == done + one.freed + f.value.freed;
    } else {
      assert one == Freeing(owner, []) && done + one.freed == done;
    }
  }

  /** The first l slots have been freed. */
  predicate Freed(before: map<nat, Owner>, owner: map<nat, Owner>, frame: Frame, l: nat, done: seq<nat>)
    requires l <= |frame.slots|
  {
    && Once(owner, frame.id, frame.slots[l..])
    && Joined(done, FreeSlots(owner, frame.id, frame.slots[l..])) == FreeSlots(before, frame.id, frame.slots)
  }

  lemma FreeBegin(owner: map<nat, Owner>, frame: Frame)
    requires Once(owner, frame.id, frame.slots)
    ensures Freed(owner, owner, frame, 0, [])
  {
    FreeSlotsExact(owner, frame.id, frame.slots);
    hide FreeSlots;
    FreeStart(owner, frame.id, frame.slots);
  }

  lemma FreeStart(owner: map<nat, Owner>, id: nat, slots: seq<Slot>)
    requires Once(owner, id, slots) && FreeSlots(owner, id, slots).Some?
    ensures Once(owner, id, slots[0..])
    ensures Joined([], FreeSlots(owner, id, slots[0..])) == FreeSlots(owner, id, slots)
  {
    hide FreeSlots;
    assert slots[0..] == slots;
    var f := FreeSlots(owner, id, slots).value;
    assert [] + f.freed == f.freed;
  }

  lemma FreeNext(before: map<nat, Owner>, owner: map<nat, Owner>, frame: Frame, l: nat, done: seq<nat>)
    requires l < |frame.slots| && Freed(before, owner, frame, l, done)
    ensures frame.slots[l].Val? ==> frame.slots[l].value in owner
    ensures var one := FreeSlots(owner, frame.id, [frame.slots[l]]);
      one.Some? && Freed(before, one.value.owner, frame, l + 1, done + one.value.freed)
  {
    var rest := frame.slots[l..];
    assert rest[0] == frame.slots[l] && rest[1..] == frame.slots[l + 1..];
    hide FreeSlots, Joined;
    FreeFirst(owner, frame.id, rest, done);
  }

  lemma FreeEnd(before: map<nat, Owner>, owner: map<nat, Owner>, frame: Frame, done: seq<nat>)
    requires Freed(before, owner, frame, |frame.slots|, done)
    ensures FreeSlots(before, frame.id, frame.slots) == Some(Freeing(owner, done))
  {
    assert frame.slots[|frame.slots|..] == [];
    assert FreeSlots(owner, frame.id, []) == Some(Freeing(owner, [])) && done + [] == done;
  }

  /** The machine did what the step says. */
  predicate Done(s: State, i: Instruction, fault: bool, t: State, before: seq<nat>, after: seq<nat>) {
    var r := Step(s, i);
    if fault then r.Fault? else Running(r) && t == r.state && after == before + r.freed
  }

  lemma FinishOn(s: State, before: seq<nat>, after: seq<nat>, owner: map<nat, Owner>)
    requires Valid(s) && s.frames != []
    requires forall i :: 0 <= i < |before| ==> before[i] !in s.owner
    requires forall i, j :: 0 <= i < j < |before| ==> before[i] != before[j]
    requires var r := Leave(s);
      Running(r) && FreedRight(s, r.state, r.freed) && after == before + r.freed && owner == r.state.owner
    requires forall v: nat :: v in owner ==> v in s.owner
    ensures forall i :: 0 <= i < |after| ==> after[i] !in owner
    ensures forall i, j :: 0 <= i < j < |after| ==> after[i] != after[j]
  {
    hide Leave;
  }
}
