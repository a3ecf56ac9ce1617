/** The code of a counted loop: do i = a to b by c for n. */
module DoLoop {
  import opened Assembly
  import opened Expressions
  import opened Instructions
  import opened ExpressionCode
  import M = Machine

  /** What is known of the step when the code is made. */
  datatype By = Unit | Positive | Negative | Dynamic

  /** The registers of the loop; register 0 is scratch. `forFirst` is the order in
      which the limit and the count are written. */
  datatype Loop = Loop(id: nat, i: nat, hasTo: bool, limit: nat, kind: By, step: nat,
                       hasFor: bool, counter: nat, forFirst: bool)

  /** The control variable has a register of its own, and so has the count. Limit and
      step may be one variable. */
  predicate Distinct(l: Loop) {
    && 0 != l.i
    && (l.hasTo ==> 0 != l.limit && l.i != l.limit)
    && (l.kind != Unit ==> 0 != l.step && l.i != l.step)
    && (l.hasFor ==>
          && 0 != l.counter && l.i != l.counter
          && (l.hasTo ==> l.limit != l.counter) && (l.kind != Unit ==> l.step != l.counter))
  }

  function StartLabel(l: Loop): Name { LabelName(l.id, "dostart") }
  function IncLabel(l: Loop): Name { LabelName(l.id, "doinc") }
  function OutLabel(l: Loop): Name { LabelName(l.id, "doend") }
  function Neg1Label(l: Loop): Name { LabelName(l.id, "doneg1") }
  function Neg2Label(l: Loop): Name { LabelName(l.id, "doneg2") }

  function Above(l: Loop): Item { Arith(Gt, 0, R(l.i), R(l.limit)) }
  function Under(l: Loop): Item { Arith(Lt, 0, R(l.i), R(l.limit)) }
  function OutIf(l: Loop): Item { Instr(Brt, Id(OutLabel(l)), R(0), None) }

  /** Leaves the loop past the limit; which way is past depends on the step's sign. */
  function ToCheck(l: Loop): Code {
    if !l.hasTo then []
    else
      match l.kind
      case Unit => [Above(l), OutIf(l)]
      case Positive => [Above(l), OutIf(l)]
      case Negative => [Under(l), OutIf(l)]
      case Dynamic =>
        [ Arith(Lt, 0, R(l.step), Int(0)),
          Instr(Brt, Id(Neg1Label(l)), R(0), None),
          Above(l),
          Instr(Brtf, Id(OutLabel(l)), Id(Neg2Label(l)), R(0)),
          Label(Neg1Label(l)),
          Under(l),
          OutIf(l),
          Label(Neg2Label(l)) ]
  }

  function CountDown(l: Loop): Item { Instr(Other("bcf"), Id(OutLabel(l)), R(l.counter), None) }

  function ForCheck(l: Loop): Code { if l.hasFor then [CountDown(l)] else [] }

  function Checks(l: Loop): Code {
    if l.forFirst then ForCheck(l) + ToCheck(l) else ToCheck(l) + ForCheck(l)
  }

  function Next(l: Loop): Item {
    if l.kind == Unit then Instr(Other("inc"), R(l.i), None, None)
    else Arith(Add, l.i, R(l.step), R(l.i))
  }

  /** The loop around a body; `tail` is the code of an UNTIL, which is tested behind the
      body, while that of a WHILE begins the body. */
  function Skeleton(l: Loop, body: Code, tail: Code): Code {
    [Label(StartLabel(l))] + Checks(l) + body + [Label(IncLabel(l))] + tail + [Next(l)]
    + [Instr(Br, Id(StartLabel(l)), None, None)] + [Label(OutLabel(l))]
  }

  /** The loop's registers hold the same numbers. */
  predicate SameLoop(l: Loop, s: M.Store, t: M.Store) {
    && Num(t, l.i) == Num(s, l.i)
    && (l.hasTo ==> Num(t, l.limit) == Num(s, l.limit))
    && (l.kind != Unit ==> Num(t, l.step) == Num(s, l.step))
    && (l.hasFor ==> Num(t, l.counter) == Num(s, l.counter))
  }

  /* ---- Runs that record the body ---- */

  /** The place behind the body, and the control variable. */
  datatype Mark = Mark(at: nat, i: nat)

  /** The values of the control variable each time the run comes to the end of the body. */
  ghost function Passes(sem: M.Semantics, code: Code, mark: Mark, n: nat, s: M.State): seq<int> {
    if n == 0 then [] else Here(mark, s) + Passes(sem, code, mark, n - 1, M.Step(sem, code, s))
  }

  ghost function Here(mark: Mark, s: M.State): seq<int> {
    if s.At? && s.pc == mark.at then [Num(s.store, mark.i)] else []
  }

  /** The program goes from s to t and runs the body for these values on the way. */
  ghost predicate Goes(sem: M.Semantics, code: Code, mark: Mark, s: M.State, t: M.State, passes: seq<int>) {
    exists n: nat :: M.Steps(sem, code, n, s) == t && Passes(sem, code, mark, n, s) == passes
  }

  lemma {:induction false} PassesAdd(sem: M.Semantics, code: Code, mark: Mark, m: nat, n: nat, s: M.State)
    ensures Passes(sem, code, mark, m + n, s)
      == Passes(sem, code, mark, m, s) + Passes(sem, code, mark, n, M.Steps(sem, code, m, s))
  {
    hide M.Step, Here;
    if m > 0 { PassesAdd(sem, code, mark, m - 1, n, M.Step(sem, code, s)); }
  }

  lemma GoesTrans(sem: M.Semantics, code: Code, mark: Mark, s: M.State, t: M.State, u: M.State,
                  x: seq<int>, y: seq<int>)
    requires Goes(sem, code, mark, s, t, x) && Goes(sem, code, mark, t, u, y)
    ensures Goes(sem, code, mark, s, u, x + y)
  {
    var m: nat :| M.Steps(sem, code, m, s) == t && Passes(sem, code, mark, m, s) == x;
    var n: nat :| M.Steps(sem, code, n, t) == u && Passes(sem, code, mark, n, t) == y;
    M.StepsAdd(sem, code, m, n, s);
    PassesAdd(sem, code, mark, m, n, s);
  }

  lemma GoesNowhere(sem: M.Semantics, code: Code, mark: Mark, s: M.State)
    ensures Goes(sem, code, mark, s, s, [])
  {
    assert M.Steps(sem, code, 0, s) == s && Passes(sem, code, mark, 0, s) == [];
  }

  lemma GoesStep(sem: M.Semantics, code: Code, mark: Mark, s: M.State, t: M.State)
    requires M.Step(sem, code, s) == t && s.At? && s.pc < |code|
    ensures Goes(sem, code, mark, s, t, Here(mark, s))
  {
    assert M.Steps(sem, code, 1, s) == M.Steps(sem, code, 0, t);
    assert Passes(sem, code, mark, 0, t) == [];
    assert Passes(sem, code, mark, 1, s) == Here(mark, s) + Passes(sem, code, mark, 0, t);
  }

  /** An item elsewhere, executed. */
  lemma GoesItem(sem: M.Semantics, code: Code, mark: Mark, at: nat, item: Item, act: M.Act,
                 s: M.Store, w: M.World, target: nat)
    requires Stands(code, at, [item]) && item.Instr? && at != mark.at
    requires M.Exec(sem, item, s, w) == act
    requires match act.go
      case Next => target == at + 1
      case To(name) => target == Find(code, name)
      case Halt => false
    ensures Goes(sem, code, mark, M.At(at, s, w), M.At(target, act.store, act.world), [])
  {
    StandsItem(code, at, item);
    GoesStep(sem, code, mark, M.At(at, s, w), M.At(target, act.store, act.world));
  }

  lemma GoesLabel(sem: M.Semantics, code: Code, mark: Mark, at: nat, name: Name, s: M.Store, w: M.World)
    requires Stands(code, at, [Label(name)]) && at != mark.at
    ensures Goes(sem, code, mark, M.At(at, s, w), M.At(at + 1, s, w), [])
  {
    StandsItem(code, at, Label(name));
    GoesStep(sem, code, mark, M.At(at, s, w), M.At(at + 1, s, w));
  }

  /* ---- The limit ---- */

  predicate Within(l: Loop, s: M.Store) {
    l.hasTo ==> if Falling(l, s) then Num(s, l.i) >= Num(s, l.limit) else Num(s, l.i) <= Num(s, l.limit)
  }

  /** The direction the limit check assumes. */
  predicate Falling(l: Loop, s: M.Store) {
    l.kind == Negative || (l.kind == Dynamic && Num(s, l.step) < 0)
  }

  /** What the code has been made for. */
  ghost predicate Setting(sem: M.Semantics, alu: Alu, code: Code, l: Loop) {
    Computes(sem, alu) && Arithmetic(alu) && LoopOps(sem) && UniqueLabels(code) && Distinct(l)
  }

  lemma GoesArith(sem: M.Semantics, alu: Alu, code: Code, mark: Mark, at: nat, op: BinOp, r: nat,
                  x: Operand, y: Operand, s: M.Store, w: M.World)
    requires Computes(sem, alu) && Integer(x) && Integer(y) && Stands(code, at, [Arith(op, r, x, y)])
    requires at != mark.at
    ensures Goes(sem, code, mark, M.At(at, s, w),
      M.At(at + 1, SetNum(s, r, alu(op, Amount(s, x), Amount(s, y))), w), [])
  {
    ArithSets(sem, alu, op, r, x, y, s, w);
    hide Stands, Computes;
    GoesItem(sem, code, mark, at, Arith(op, r, x, y), M.Exec(sem, Arith(op, r, x, y), s, w), s, w, at + 1);
  }

  lemma GoesBranch(sem: M.Semantics, code: Code, mark: Mark, at: nat, name: Name, s: M.Store, w: M.World)
    requires Stands(code, at, [Instr(Brt, Id(name), R(0), None)]) && at != mark.at
    ensures Goes(sem, code, mark, M.At(at, s, w),
      M.At(if Num(s, 0) != 0 then Find(code, name) else at + 1, s, w), [])
  {
    var item := Instr(Brt, Id(name), R(0), None);
    hide Stands;
    GoesItem(sem, code, mark, at, item, M.Exec(sem, item, s, w), s, w,
             if Num(s, 0) != 0 then Find(code, name) else at + 1);
  }

  /** A comparison of the control variable with the limit, and the way out. */
  lemma SimpleCheck(sem: M.Semantics, alu: Alu, code: Code, mark: Mark, l: Loop, at: nat, op: BinOp, out: nat,
                    s: M.Store, w: M.World)
    requires Setting(sem, alu, code, l) && l.hasTo && (op == Gt || op == Lt) && at + 2 <= mark.at
    requires Stands(code, at, [Arith(op, 0, R(l.i), R(l.limit))]) && Stands(code, at + 1, [OutIf(l)])
    requires Find(code, OutLabel(l)) == out
    ensures var v := alu(op, Num(s, l.i), Num(s, l.limit));
      Goes(sem, code, mark, M.At(at, s, w), M.At(if v != 0 then out else at + 2, SetNum(s, 0, v), w), [])
  {
    var v := alu(op, Num(s, l.i), Num(s, l.limit));
    hide Stands, Goes, Computes, LoopOps, UniqueLabels;
    GoesArith(sem, alu, code, mark, at, op, 0, R(l.i), R(l.limit), s, w);
    GoesBranch(sem, code, mark, at + 1, OutLabel(l), SetNum(s, 0, v), w);
    GoesTrans(sem, code, mark, M.At(at, s, w), M.At(at + 1, SetNum(s, 0, v), w),
              M.At(if v != 0 then out else at + 2, SetNum(s, 0, v), w), [], []);
  }

  /** Where the pieces of a fragment stand, item by item. */
  lemma {:induction false} StandsEach(code: Code, at: nat, f: Code, k: nat)
    requires Stands(code, at, f) && k < |f|
    ensures Stands(code, at + k, [f[k]])
  {
    assert f == f[..k] + ([f[k]] + f[k + 1..]);
    StandsSplit(code, at, f[..k], [f[k]] + f[k + 1..]);
    StandsSplit(code, at + k, [f[k]], f[k + 1..]);
  }

  /** The part of the dynamic check for a falling loop, from its label on. */
  lemma FallingCheck(sem: M.Semantics, alu: Alu, code: Code, mark: Mark, l: Loop, at: nat, out: nat,
                     s: M.Store, w: M.World) returns (t: M.Store)
    requires Setting(sem, alu, code, l) && l.hasTo && at + 4 <= mark.at
    requires Stands(code, at, [Label(Neg1Label(l))]) && Stands(code, at + 1, [Under(l)])
    requires Stands(code, at + 2, [OutIf(l)]) && Stands(code, at + 3, [Label(Neg2Label(l))])
    requires Find(code, OutLabel(l)) == out
    ensures SameLoop(l, s, t)
    ensures var ok := Num(s, l.i) >= Num(s, l.limit);
      Goes(sem, code, mark, M.At(at, s, w), M.At(if ok then at + 4 else out, t, w), [])
  {
    hide Stands, Goes, Computes, LoopOps, UniqueLabels;
    GoesLabel(sem, code, mark, at, Neg1Label(l), s, w);
    SimpleCheck(sem, alu, code, mark, l, at + 1, Lt, out, s, w);
    var ok := Num(s, l.i) >= Num(s, l.limit);
    t := SetNum(s, 0, alu(Lt, Num(s, l.i), Num(s, l.limit)));
    var next := M.At(if ok then at + 3 else out, t, w);
    GoesTrans(sem, code, mark, M.At(at, s, w), M.At(at + 1, s, w), next, [], []);
    if ok {
      GoesLabel(sem, code, mark, at + 3, Neg2Label(l), t, w);
      GoesTrans(sem, code, mark, M.At(at, s, w), next, M.At(at + 4, t, w), [], []);
    }
  }

  /** The part for a rising loop. */
  lemma RisingCheck(sem: M.Semantics, alu: Alu, code: Code, mark: Mark, l: Loop, at: nat, out: nat,
                    s: M.Store, w: M.World) returns (t: M.Store)
    requires Setting(sem, alu, code, l) && l.hasTo && at + 6 <= mark.at
    requires Stands(code, at, [Above(l)])
    requires Stands(code, at + 1, [Instr(Brtf, Id(OutLabel(l)), Id(Neg2Label(l)), R(0))])
    requires Stands(code, at + 5, [Label(Neg2Label(l))])
    requires Find(code, OutLabel(l)) == out && Find(code, Neg2Label(l)) == at + 5
    ensures SameLoop(l, s, t)
    ensures var ok := Num(s, l.i) <= Num(s, l.limit);
      Goes(sem, code, mark, M.At(at, s, w), M.At(if ok then at + 6 else out, t, w), [])
  {
    hide Stands, Goes, Computes, LoopOps, UniqueLabels;
    GoesArith(sem, alu, code, mark, at, Gt, 0, R(l.i), R(l.limit), s, w);
    var ok := Num(s, l.i) <= Num(s, l.limit);
    t := SetNum(s, 0, alu(Gt, Num(s, l.i), Num(s, l.limit)));
    GoesEither(sem, code, mark, l, at + 1, out, at + 5, t, w);
    var next := M.At(if ok then at + 5 else out, t, w);
    GoesTrans(sem, code, mark, M.At(at, s, w), M.At(at + 1, t, w), next, [], []);
    if ok {
      GoesLabel(sem, code, mark, at + 5, Neg2Label(l), t, w);
      GoesTrans(sem, code, mark, M.At(at, s, w), next, M.At(at + 6, t, w), [], []);
    }
  }

  ghost predicate DynamicStands(code: Code, l: Loop, at: nat) {
    && Stands(code, at, [Arith(Lt, 0, R(l.step), Int(0))])
    && Stands(code, at + 1, [Instr(Brt, Id(Neg1Label(l)), R(0), None)])
    && Stands(code, at + 2, [Above(l)])
    && Stands(code, at + 3, [Instr(Brtf, Id(OutLabel(l)), Id(Neg2Label(l)), R(0))])
    && Stands(code, at + 4, [Label(Neg1Label(l))]) && Stands(code, at + 5, [Under(l)])
    && Stands(code, at + 6, [OutIf(l)]) && Stands(code, at + 7, [Label(Neg2Label(l))])
  }

  lemma DynamicLayout(code: Code, l: Loop, at: nat)
    requires l.hasTo && l.kind == Dynamic && Stands(code, at, ToCheck(l)) && UniqueLabels(code)
    ensures DynamicStands(code, l, at)
    ensures Find(code, Neg1Label(l)) == at + 4 && Find(code, Neg2Label(l)) == at + 7
  {
    hide Stands, UniqueLabels, Find;
    var f := ToCheck(l);
    StandsEach(code, at, f, 0); StandsEach(code, at, f, 1); StandsEach(code, at, f, 2);
    StandsEach(code, at, f, 3); StandsEach(code, at, f, 4); StandsEach(code, at, f, 5);
    StandsEach(code, at, f, 6); StandsEach(code, at, f, 7);
    LabelFound(code, at + 4, Neg1Label(l));
    LabelFound(code, at + 7, Neg2Label(l));
  }

  /** The test of the step's sign. */
  lemma SignCheck(sem: M.Semantics, alu: Alu, code: Code, mark: Mark, l: Loop, at: nat, s: M.Store, w: M.World)
    requires Setting(sem, alu, code, l) && at + 2 <= mark.at && Find(code, Neg1Label(l)) == at + 4
    requires Stands(code, at, [Arith(Lt, 0, R(l.step), Int(0))])
    requires Stands(code, at + 1, [Instr(Brt, Id(Neg1Label(l)), R(0), None)])
    ensures var down := Num(s, l.step) < 0;
      Goes(sem, code, mark, M.At(at, s, w),
           M.At(if down then at + 4 else at + 2, SetNum(s, 0, if down then 1 else 0), w), [])
  {
    hide Stands, Goes, Computes, LoopOps, UniqueLabels, Find, Neg1Label;
    var down := Num(s, l.step) < 0;
    var s1 := SetNum(s, 0, if down then 1 else 0);
    GoesArith(sem, alu, code, mark, at, Lt, 0, R(l.step), Int(0), s, w);
    GoesBranch(sem, code, mark, at + 1, Neg1Label(l), s1, w);
    GoesTrans(sem, code, mark, M.At(at, s, w), M.At(at + 1, s1, w), M.At(if down then at + 4 else at + 2, s1, w), [], []);
  }

  /** The dynamic check: first the sign of the step, then the comparison it calls for. */
  lemma DynamicCheck(sem: M.Semantics, alu: Alu, code: Code, mark: Mark, l: Loop, at: nat, out: nat,
                     s: M.Store, w: M.World) returns (t: M.Store)
    requires Setting(sem, alu, code, l) && l.hasTo && l.kind == Dynamic && at + 8 <= mark.at
    requires Stands(code, at, ToCheck(l)) && Find(code, OutLabel(l)) == out
    ensures SameLoop(l, s, t)
    ensures Goes(sem, code, mark, M.At(at, s, w), M.At(if Within(l, s) then at + 8 else out, t, w), [])
  {
    DynamicLayout(code, l, at);
    hide Stands, Goes, Computes, LoopOps, UniqueLabels, Find, ToCheck;
    var s1 := SetNum(s, 0, if Num(s, l.step) < 0 then 1 else 0);
    var begin, next := M.At(at, s, w), M.At(if Num(s, l.step) < 0 then at + 4 else at + 2, s1, w);
    SignCheck(sem, alu, code, mark, l, at, s, w);
    hide Arithmetic, Above, Under, OutIf, Neg1Label, Neg2Label, OutLabel;
    if Num(s, l.step) < 0 {
      t := FallingCheck(sem, alu, code, mark, l, at + 4, out, s1, w);
    } else {
      t := RisingCheck(sem, alu, code, mark, l, at + 2, out, s1, w);
    }
    GoesTrans(sem, code, mark, begin, next, M.At(if Within(l, s) then at + 8 else out, t, w), [], []);
  }

  lemma GoesEither(sem: M.Semantics, code: Code, mark: Mark, l: Loop, at: nat, out: nat, neg2: nat, s: M.Store, w: M.World)
    requires Stands(code, at, [Instr(Brtf, Id(OutLabel(l)), Id(Neg2Label(l)), R(0))]) && at != mark.at
    requires Find(code, OutLabel(l)) == out && Find(code, Neg2Label(l)) == neg2
    ensures Goes(sem, code, mark, M.At(at, s, w), M.At(if Num(s, 0) != 0 then out else neg2, s, w), [])
  {
    var item := Instr(Brtf, Id(OutLabel(l)), Id(Neg2Label(l)), R(0));
    hide Stands;
    GoesItem(sem, code, mark, at, item, M.Exec(sem, item, s, w), s, w, if Num(s, 0) != 0 then out else neg2);
  }

  /** Every form of the limit check leaves the loop exactly if the control variable is
      past the limit, and changes none of the loop's registers. */
  lemma LimitCheck(sem: M.Semantics, alu: Alu, code: Code, mark: Mark, l: Loop, at: nat, out: nat,
                   s: M.Store, w: M.World) returns (t: M.Store)
    requires Setting(sem, alu, code, l) && Stands(code, at, ToCheck(l)) && Find(code, OutLabel(l)) == out
    requires at + |ToCheck(l)| <= mark.at
    ensures SameLoop(l, s, t)
    ensures Goes(sem, code, mark, M.At(at, s, w), M.At(if Within(l, s) then at + |ToCheck(l)| else out, t, w), [])
  {
    hide Setting, Goes, Stands;
    if !l.hasTo {
      t := s;
      GoesNowhere(sem, code, mark, M.At(at, s, w));
    } else if l.kind == Dynamic {
      t := DynamicCheck(sem, alu, code, mark, l, at, out, s, w);
    } else {
      t := StaticCheck(sem, alu, code, mark, l, at, out, s, w);
    }
  }

  lemma StaticCheck(sem: M.Semantics, alu: Alu, code: Code, mark: Mark, l: Loop, at: nat, out: nat,
                    s: M.Store, w: M.World) returns (t: M.Store)
    requires Setting(sem, alu, code, l) && Stands(code, at, ToCheck(l)) && Find(code, OutLabel(l)) == out
    requires l.hasTo && l.kind != Dynamic && at + 2 <= mark.at
    ensures SameLoop(l, s, t)
    ensures Goes(sem, code, mark, M.At(at, s, w), M.At(if Within(l, s) then at + |ToCheck(l)| else out, t, w), [])
  {
    hide Stands, Goes, Computes, LoopOps, UniqueLabels, Find;
    var op := if l.kind == Negative then Lt else Gt;
    StandsEach(code, at, ToCheck(l), 0);
    StandsEach(code, at, ToCheck(l), 1);
    SimpleCheck(sem, alu, code, mark, l, at, op, out, s, w);
    t := SetNum(s, 0, alu(op, Num(s, l.i), Num(s, l.limit)));
  }

  /* ---- The count ---- */

  predicate Counts(l: Loop, s: M.Store) { l.hasFor ==> Num(s, l.counter) != 0 }

  function Counted(l: Loop, s: M.Store): M.Store {
    if l.hasFor && Num(s, l.counter) != 0 then SetNum(s, l.counter, Num(s, l.counter) - 1) else s
  }

  lemma CountDownActs(sem: M.Semantics, l: Loop, s: M.Store, w: M.World)
    requires LoopOps(sem) && l.hasFor
    ensures M.Exec(sem, CountDown(l), s, w)
      == if Counts(l, s) then M.Act(Counted(l, s), w, M.Next) else M.Act(s, w, M.To(OutLabel(l)))
  {
    assert LoopOpsAt(sem, s, w);
    assert CountsDown(sem, CountDown(l), OutLabel(l), l.counter, s, w);
    hide M.Exec;
  }

  lemma CountCheck(sem: M.Semantics, alu: Alu, code: Code, mark: Mark, l: Loop, at: nat, out: nat,
                   s: M.Store, w: M.World)
    requires Setting(sem, alu, code, l) && Stands(code, at, ForCheck(l)) && Find(code, OutLabel(l)) == out
    requires at + |ForCheck(l)| <= mark.at
    ensures Goes(sem, code, mark, M.At(at, s, w),
      M.At(if Counts(l, s) then at + |ForCheck(l)| else out, Counted(l, s), w), [])
  {
    if !l.hasFor {
      GoesNowhere(sem, code, mark, M.At(at, s, w));
    } else {
      var act := if Counts(l, s) then M.Act(Counted(l, s), w, M.Next) else M.Act(s, w, M.To(OutLabel(l)));
      CountDownActs(sem, l, s, w);
      hide *;
      GoesItem(sem, code, mark, at, CountDown(l), act, s, w, if Counts(l, s) then at + 1 else out);
    }
  }

  /* ---- One round ---- */

  /** A loop whose start label stands at a position. `exits` says whether body or tail may
      leave it. */
  datatype Site = Site(l: Loop, body: Code, tail: Code, at: nat, exits: bool)
  {
    function First(): nat { at + 1 + |Checks(l)| }
    function Inc(): nat { First() + |body| }
    function Tail(): nat { Inc() + 1 }
    function Up(): nat { Tail() + |tail| }
    function Out(): nat { Up() + 2 }

    /** The end of the body. */
    function ToMark(): Mark { Mark(Inc(), l.i) }
  }

  /** Where the pieces of the loop stand. */
  ghost predicate Layout(code: Code, x: Site) {
    && Stands(code, x.at, [Label(StartLabel(x.l))]) && Stands(code, x.at + 1, Checks(x.l))
    && Stands(code, x.First(), x.body) && Stands(code, x.Inc(), [Label(IncLabel(x.l))])
    && Stands(code, x.Tail(), x.tail) && Stands(code, x.Up(), [Next(x.l)])
    && Stands(code, x.Up() + 1, [Instr(Br, Id(StartLabel(x.l)), None, None)])
    && Stands(code, x.Out(), [Label(OutLabel(x.l))])
  }

  lemma SkeletonLayout(code: Code, x: Site)
    requires Stands(code, x.at, Skeleton(x.l, x.body, x.tail))
    ensures Layout(code, x)
    ensures x.at + |Skeleton(x.l, x.body, x.tail)| == x.Out() + 1
  {
    hide Stands, Checks, StartLabel, IncLabel, OutLabel, Next;
    var l, body, tail, at := x.l, x.body, x.tail, x.at;
    var a, c, d := [Label(StartLabel(l))], [Label(IncLabel(l))], [Next(l)];
    var e, f := [Instr(Br, Id(StartLabel(l)), None, None)], [Label(OutLabel(l))];
    StandsSplit(code, at, a + Checks(l) + body + c + tail + d + e, f);
    StandsSplit(code, at, a + Checks(l) + body + c + tail + d, e);
    StandsSplit(code, at, a + Checks(l) + body + c + tail, d);
    StandsSplit(code, at, a + Checks(l) + body + c, tail);
    StandsSplit(code, at, a + Checks(l) + body, c);
    StandsSplit(code, at, a + Checks(l), body);
    StandsSplit(code, at, a, Checks(l));
  }

  /** Whenever the run from `begin` comes to the first item of the body, or of the tail, it
      comes on to the end of that, or out of the loop if it may, whatever it does, and
      leaves the loop's registers alone. */
  ghost predicate BodyRuns(sem: M.Semantics, code: Code, x: Site, begin: M.State) {
    forall n: nat :: PartsRun(sem, code, x, M.Steps(sem, code, n, begin))
  }

  ghost predicate PartsRun(sem: M.Semantics, code: Code, x: Site, s: M.State) {
    s.At? ==>
      && (s.pc == x.First() ==> Comes(sem, code, x, x.First(), x.Inc(), s.store, s.world))
      && (s.pc == x.Tail() ==> Comes(sem, code, x, x.Tail(), x.Up(), s.store, s.world))
  }

  ghost predicate Comes(sem: M.Semantics, code: Code, x: Site, from: nat, to: nat, s: M.Store, w: M.World) {
    exists n: nat :: ComesIn(sem, code, x, from, to, s, w, n)
  }

  ghost predicate ComesIn(sem: M.Semantics, code: Code, x: Site, from: nat, to: nat, s: M.Store, w: M.World, n: nat) {
    && (var end := M.Steps(sem, code, n, M.At(from, s, w));
        end.At? && (end.pc == to || (x.exits && end.pc == x.Out())) && SameLoop(x.l, s, end.store))
    && forall m: nat :: m < n ==> NotAt(M.Steps(sem, code, m, M.At(from, s, w)), x.Inc())
  }

  predicate NotAt(s: M.State, to: nat) { s.At? ==> s.pc != to }

  /** On the way nothing is recorded. */
  lemma {:induction false} NoPasses(sem: M.Semantics, code: Code, mark: Mark, n: nat, s: M.State)
    requires forall m: nat :: m < n ==> NotAt(M.Steps(sem, code, m, s), mark.at)
    ensures Passes(sem, code, mark, n, s) == []
  {
    hide M.Step;
    if n > 0 {
      assert M.Steps(sem, code, 0, s) == s;
      var s' := M.Step(sem, code, s);
      forall m: nat | m < n - 1 ensures NotAt(M.Steps(sem, code, m, s'), mark.at) {
        assert M.Steps(sem, code, m + 1, s) == M.Steps(sem, code, m, s');
      }
      NoPasses(sem, code, mark, n - 1, s');
    }
  }

  /** The control variable, the limit and the step are as they were. */
  predicate Keeping(l: Loop, s: M.Store, t: M.Store) {
    && Num(t, l.i) == Num(s, l.i)
    && (l.hasTo ==> Num(t, l.limit) == Num(s, l.limit))
    && (l.kind != Unit ==> Num(t, l.step) == Num(s, l.step))
  }

  /** The checks let the body run exactly if the control variable is within the limit
      and the count is not used up; then the count has gone down by one. */
  lemma ChecksRun(sem: M.Semantics, alu: Alu, code: Code, mark: Mark, l: Loop, at: nat, out: nat,
                  s: M.Store, w: M.World) returns (t: M.Store)
    requires Setting(sem, alu, code, l) && Stands(code, at, Checks(l)) && Find(code, OutLabel(l)) == out
    requires at + |Checks(l)| <= mark.at
    ensures var ok := Within(l, s) && Counts(l, s);
      && Goes(sem, code, mark, M.At(at, s, w), M.At(if ok then at + |Checks(l)| else out, t, w), [])
      && Keeping(l, s, t) && (ok && l.hasFor ==> Num(t, l.counter) == Num(s, l.counter) - 1)
  {
    hide Stands, Goes, Computes, LoopOps, UniqueLabels, Find, ToCheck, ForCheck, Arithmetic;
    var begin := M.At(at, s, w);
    if l.forFirst {
      StandsSplit(code, at, ForCheck(l), ToCheck(l));
      CountCheck(sem, alu, code, mark, l, at, out, s, w);
      t := Counted(l, s);
      if Counts(l, s) {
        t := LimitCheck(sem, alu, code, mark, l, at + |ForCheck(l)|, out, Counted(l, s), w);
        GoesTrans(sem, code, mark, begin, M.At(at + |ForCheck(l)|, Counted(l, s), w),
                  M.At(if Within(l, s) then at + |Checks(l)| else out, t, w), [], []);
      }
    } else {
      StandsSplit(code, at, ToCheck(l), ForCheck(l));
      var s1 := LimitCheck(sem, alu, code, mark, l, at, out, s, w);
      t := s1;
      if Within(l, s) {
        CountCheck(sem, alu, code, mark, l, at + |ToCheck(l)|, out, s1, w);
        t := Counted(l, s1);
        GoesTrans(sem, code, mark, begin, M.At(at + |ToCheck(l)|, s1, w),
                  M.At(if Counts(l, s) then at + |Checks(l)| else out, t, w), [], []);
      }
    }
  }

  /** The amount the control variable changes by. */
  function StepOf(l: Loop, s: M.Store): int { if l.kind == Unit then 1 else Num(s, l.step) }

  lemma NextRuns(sem: M.Semantics, alu: Alu, code: Code, mark: Mark, l: Loop, at: nat, s: M.Store, w: M.World)
    requires Setting(sem, alu, code, l) && Stands(code, at, [Next(l)]) && at != mark.at
    ensures Goes(sem, code, mark, M.At(at, s, w),
      M.At(at + 1, SetNum(s, l.i, Num(s, l.i) + StepOf(l, s)), w), [])
  {
    hide Stands, Goes, Computes, UniqueLabels, Arithmetic, Distinct;
    if l.kind == Unit {
      IncRuns(sem, code, mark, l, at, s, w);
    } else {
      GoesArith(sem, alu, code, mark, at, Add, l.i, R(l.step), R(l.i), s, w);
      SumIs(alu, Num(s, l.step), Num(s, l.i));
    }
  }

  lemma SumIs(alu: Alu, x: int, y: int)
    requires Arithmetic(alu)
    ensures alu(Add, x, y) == x + y
  {
  }

  lemma IncRuns(sem: M.Semantics, code: Code, mark: Mark, l: Loop, at: nat, s: M.Store, w: M.World)
    requires LoopOps(sem) && Stands(code, at, [Instr(Other("inc"), R(l.i), None, None)]) && at != mark.at
    ensures Goes(sem, code, mark, M.At(at, s, w), M.At(at + 1, SetNum(s, l.i, Num(s, l.i) + 1), w), [])
  {
    var item := Instr(Other("inc"), R(l.i), None, None);
    var act := M.Act(SetNum(s, l.i, Num(s, l.i) + 1), w, M.Next);
    assert M.Exec(sem, item, s, w) == act by { assert LoopOpsAt(sem, s, w); }
    hide *;
    GoesItem(sem, code, mark, at, item, act, s, w, at + 1);
  }

  /** What is asked of the body from some state on is asked from each later one on. */
  lemma BodyLater(sem: M.Semantics, code: Code, mark: Mark, x: Site, s: M.State, t: M.State, passes: seq<int>)
    requires Goes(sem, code, mark, s, t, passes) && BodyRuns(sem, code, x, s)
    ensures BodyRuns(sem, code, x, t) && PartsRun(sem, code, x, t)
  {
    var m: nat :| M.Steps(sem, code, m, s) == t && Passes(sem, code, mark, m, s) == passes;
    StepsLater(sem, code, x, s, m);
  }

  lemma StepsLater(sem: M.Semantics, code: Code, x: Site, s: M.State, m: nat)
    requires BodyRuns(sem, code, x, s)
    ensures var t := M.Steps(sem, code, m, s); BodyRuns(sem, code, x, t) && PartsRun(sem, code, x, t)
  {
    hide M.Steps, PartsRun;
    assert PartsRun(sem, code, x, M.Steps(sem, code, m, s));
    forall n: nat ensures PartsRun(sem, code, x, M.Steps(sem, code, n, M.Steps(sem, code, m, s))) {
      M.StepsAdd(sem, code, m, n, s);
      assert PartsRun(sem, code, x, M.Steps(sem, code, m + n, s));
    }
  }

  /** Body or tail, to its end or out of the loop. */
  lemma PartGoes(sem: M.Semantics, code: Code, x: Site, from: nat, to: nat, s: M.Store, w: M.World)
      returns (t: M.Store, v: M.World, left: bool)
    requires Comes(sem, code, x, from, to, s, w)
    ensures SameLoop(x.l, s, t) && (left ==> x.exits)
    ensures Goes(sem, code, x.ToMark(), M.At(from, s, w), M.At(if left then x.Out() else to, t, v), [])
  {
    var n: nat :| ComesIn(sem, code, x, from, to, s, w, n);
    var end := M.Steps(sem, code, n, M.At(from, s, w));
    t, v, left := end.store, end.world, end.pc != to;
    NoPasses(sem, code, x.ToMark(), n, M.At(from, s, w));
  }

  /** The end of the loop, from the label behind it. */
  lemma GoesOut(sem: M.Semantics, code: Code, x: Site, s: M.State, t: M.Store, v: M.World, passes: seq<int>)
    requires Layout(code, x) && Goes(sem, code, x.ToMark(), s, M.At(x.Out(), t, v), passes)
    ensures Goes(sem, code, x.ToMark(), s, M.At(x.Out() + 1, t, v), passes)
  {
    hide Stands, Goes, Checks;
    GoesLabel(sem, code, x.ToMark(), x.Out(), OutLabel(x.l), t, v);
    GoesTrans(sem, code, x.ToMark(), s, M.At(x.Out(), t, v), M.At(x.Out() + 1, t, v), passes, []);
    assert passes + [] == passes;
  }

  /** The next round: the step has been added, and the count is as it was. */
  predicate Stepped(l: Loop, s: M.Store, t: M.Store) {
    && Num(t, l.i) == Num(s, l.i) + StepOf(l, s)
    && (l.hasTo ==> Num(t, l.limit) == Num(s, l.limit)) && (l.kind != Unit ==> Num(t, l.step) == Num(s, l.step))
    && (l.hasFor ==> Num(t, l.counter) == Num(s, l.counter))
  }

  /** From the start label: out of the loop, or once through the body and then out or
      back, with the step added. */
  lemma Round(sem: M.Semantics, alu: Alu, code: Code, x: Site, s: M.Store, w: M.World)
      returns (t: M.Store, v: M.World, passes: seq<int>, left: bool)
    requires Setting(sem, alu, code, x.l) && Layout(code, x) && BodyRuns(sem, code, x, M.At(x.at, s, w))
    ensures left ==> x.exits && Within(x.l, s) && Counts(x.l, s)
    ensures Goes(sem, code, x.ToMark(), M.At(x.at, s, w),
      M.At(if Within(x.l, s) && Counts(x.l, s) && !left then x.at else x.Out() + 1, t, v), passes)
    ensures if Within(x.l, s) && Counts(x.l, s) then
        && (passes == [Num(s, x.l.i)] || (left && passes == []))
        && if left then Num(t, x.l.i) == Num(s, x.l.i) else Advanced(x.l, s, t)
      else
        passes == [] && Num(t, x.l.i) == Num(s, x.l.i)
  {
    hide Stands, Goes, Computes, LoopOps, UniqueLabels, Find, Checks, Arithmetic, Counted, Distinct,
      StartLabel, IncLabel, OutLabel, Next, SetNum, Within, Counts, StepOf, BodyRuns, Comes;
    var (l, mark) := (x.l, x.ToMark());
    LabelFound(code, x.Out(), OutLabel(l));
    LabelFound(code, x.at, StartLabel(l));
    var begin := M.At(x.at, s, w);
    GoesLabel(sem, code, mark, x.at, StartLabel(l), s, w);
    var s1 := ChecksRun(sem, alu, code, mark, l, x.at + 1, x.Out(), s, w);
    left, passes := false, [];
    if Within(l, s) && Counts(l, s) {
      GoesTrans(sem, code, mark, begin, M.At(x.at + 1, s, w), M.At(x.First(), s1, w), [], []);
      BodyLater(sem, code, mark, x, begin, M.At(x.First(), s1, w), []);
      t, v, passes, left := BodyRound(sem, alu, code, x, s1, w);
      GoesTrans(sem, code, mark, begin, M.At(x.First(), s1, w), M.At(if left then x.Out() + 1 else x.at, t, v), [], passes);
      StepSame(l, s, s1);
      assert [] + passes == passes;
    } else {
      t, v := s1, w;
      GoesTrans(sem, code, mark, begin, M.At(x.at + 1, s, w), M.At(x.Out(), s1, w), [], []);
      GoesOut(sem, code, x, begin, s1, w, []);
    }
  }

  /** Once through the loop: the step has been added, and the count has gone down. */
  predicate Advanced(l: Loop, s: M.Store, t: M.Store) {
    && Num(t, l.i) == Num(s, l.i) + StepOf(l, s)
    && (l.hasTo ==> Num(t, l.limit) == Num(s, l.limit)) && (l.kind != Unit ==> Num(t, l.step) == Num(s, l.step))
    && (l.hasFor ==> Num(t, l.counter) == Num(s, l.counter) - 1)
  }

  lemma StepSame(l: Loop, s: M.Store, t: M.Store)
    requires l.kind != Unit ==> Num(t, l.step) == Num(s, l.step)
    ensures StepOf(l, t) == StepOf(l, s)
  {
  }

  /** From the body on. */
  lemma BodyRound(sem: M.Semantics, alu: Alu, code: Code, x: Site, s: M.Store, w: M.World)
      returns (t: M.Store, v: M.World, passes: seq<int>, left: bool)
    requires Setting(sem, alu, code, x.l) && Layout(code, x) && Find(code, StartLabel(x.l)) == x.at
    requires BodyRuns(sem, code, x, M.At(x.First(), s, w)) && Comes(sem, code, x, x.First(), x.Inc(), s, w)
    ensures (left ==> x.exits) && (passes == [Num(s, x.l.i)] || (left && passes == []))
    ensures Goes(sem, code, x.ToMark(), M.At(x.First(), s, w), M.At(if left then x.Out() + 1 else x.at, t, v), passes)
    ensures if left then Num(t, x.l.i) == Num(s, x.l.i) else Stepped(x.l, s, t)
  {
    hide Setting, Layout, Goes, Find, Checks, BodyRuns, Comes, StepOf;
    var mark := x.ToMark();
    t, v, left := PartGoes(sem, code, x, x.First(), x.Inc(), s, w);
    passes := [];
    if left {
      GoesOut(sem, code, x, M.At(x.First(), s, w), t, v, []);
    } else {
      var s2, w2 := t, v;
      BodyLater(sem, code, mark, x, M.At(x.First(), s, w), M.At(x.Inc(), s2, w2), []);
      t, v, left := IncRound(sem, alu, code, x, s2, w2);
      passes := [Num(s, x.l.i)];
      GoesTrans(sem, code, mark, M.At(x.First(), s, w), M.At(x.Inc(), s2, w2),
                M.At(if left then x.Out() + 1 else x.at, t, v), [], passes);
      StepSame(x.l, s, s2);
      assert [] + passes == passes;
    }
  }

  /** From the end of the body on. */
  lemma IncRound(sem: M.Semantics, alu: Alu, code: Code, x: Site, s: M.Store, w: M.World)
      returns (t: M.Store, v: M.World, left: bool)
    requires Setting(sem, alu, code, x.l) && Layout(code, x) && Find(code, StartLabel(x.l)) == x.at
    requires BodyRuns(sem, code, x, M.At(x.Inc(), s, w))
    ensures left ==> x.exits
    ensures Goes(sem, code, x.ToMark(), M.At(x.Inc(), s, w),
      M.At(if left then x.Out() + 1 else x.at, t, v), [Num(s, x.l.i)])
    ensures if left then Num(t, x.l.i) == Num(s, x.l.i) else Stepped(x.l, s, t)
  {
    hide Setting, Stands, Goes, Find, Checks, BodyRuns, Comes, Next, StepOf;
    var mark, begin, pass := x.ToMark(), M.At(x.Inc(), s, w), [Num(s, x.l.i)];
    GoesMark(sem, code, x, s, w);
    BodyLater(sem, code, mark, x, begin, M.At(x.Tail(), s, w), pass);
    t, v, left := PartGoes(sem, code, x, x.Tail(), x.Up(), s, w);
    GoesTrans(sem, code, mark, begin, M.At(x.Tail(), s, w), M.At(if left then x.Out() else x.Up(), t, v), pass, []);
    assert pass + [] == pass;
    if left {
      GoesOut(sem, code, x, begin, t, v, pass);
    } else {
      var s3 := t;
      StepSame(x.l, s, s3);
      t := SetNum(s3, x.l.i, Num(s3, x.l.i) + StepOf(x.l, s3));
      BackToStart(sem, alu, code, x, s3, v);
      GoesTrans(sem, code, mark, begin, M.At(x.Up(), s3, v), M.At(x.at, t, v), pass, []);
      SteppedIs(sem, alu, code, x.l, s, s3);
    }
  }

  lemma SteppedIs(sem: M.Semantics, alu: Alu, code: Code, l: Loop, s: M.Store, t: M.Store)
    requires Setting(sem, alu, code, l) && SameLoop(l, s, t)
    ensures Stepped(l, s, SetNum(t, l.i, Num(t, l.i) + StepOf(l, t)))
  {
    hide Computes, Arithmetic, LoopOps, UniqueLabels;
  }

  lemma GoesMark(sem: M.Semantics, code: Code, x: Site, s: M.Store, w: M.World)
    requires Stands(code, x.Inc(), [Label(IncLabel(x.l))])
    ensures Goes(sem, code, x.ToMark(), M.At(x.Inc(), s, w), M.At(x.Tail(), s, w), [Num(s, x.l.i)])
  {
    StandsItem(code, x.Inc(), Label(IncLabel(x.l)));
    hide Stands, Checks, Goes;
    GoesStep(sem, code, x.ToMark(), M.At(x.Inc(), s, w), M.At(x.Tail(), s, w));
  }

  /** From the increment back to the start. */
  lemma BackToStart(sem: M.Semantics, alu: Alu, code: Code, x: Site, s: M.Store, w: M.World)
    requires Setting(sem, alu, code, x.l) && Find(code, StartLabel(x.l)) == x.at && Stands(code, x.Up(), [Next(x.l)])
    requires Stands(code, x.Up() + 1, [Instr(Br, Id(StartLabel(x.l)), None, None)])
    ensures Goes(sem, code, x.ToMark(), M.At(x.Up(), s, w),
      M.At(x.at, SetNum(s, x.l.i, Num(s, x.l.i) + StepOf(x.l, s)), w), [])
  {
    hide Stands, Computes, LoopOps, UniqueLabels, Find, Arithmetic, Goes, Next, Checks;
    var mark, t := x.ToMark(), SetNum(s, x.l.i, Num(s, x.l.i) + StepOf(x.l, s));
    var back := Instr(Br, Id(StartLabel(x.l)), None, None);
    NextRuns(sem, alu, code, mark, x.l, x.Up(), s, w);
    GoesItem(sem, code, mark, x.Up() + 1, back, M.Exec(sem, back, t, w), t, w, x.at);
    GoesTrans(sem, code, mark, M.At(x.Up(), s, w), M.At(x.Up() + 1, t, w), M.At(x.at, t, w), [], []);
  }

  /* ---- The whole loop ---- */

  /** How many of a, a + c, a + 2c, ... are not past b. */
  function Reach(a: int, b: int, c: int): (n: nat)
    requires c != 0
  {
    if c > 0 then (if b < a then 0 else (b - a) / c + 1)
    else if b > a then 0 else (a - b) / (-c) + 1
  }

  lemma ReachIs(a: int, b: int, c: int, k: nat)
    requires c != 0
    ensures k < Reach(a, b, c) <==> if c > 0 then a + k * c <= b else a + k * c >= b
  {
    if c > 0 { Quotient(b - a, c, k); } else { Quotient(a - b, -c, k); }
    assert k * (-c) == -(k * c);
  }

  lemma Quotient(x: int, d: int, k: nat)
    requires d > 0
    ensures x >= 0 ==> (k <= x / d <==> k * d <= x)
    ensures x < 0 ==> k * d > x
  {
    if x >= 0 {
      var q := x / d;
      assert x == q * d + x % d;
      if k <= q { MulMonotone(k, q, d); }
      if k >= q + 1 { MulMonotone(q + 1, k, d); }
    }
    MulMonotone(0, k, d);
  }

  lemma MulMonotone(x: int, y: int, d: int)
    requires x <= y && d > 0
    ensures x * d <= y * d
  {
  }

  /** The number of rounds: the smaller of the count and what the limit allows. */
  function Rounds(l: Loop, a: int, b: int, c: int, n: int): nat
    requires c != 0 && (l.hasTo || l.hasFor) && (l.hasFor ==> n >= 0)
  {
    if !l.hasTo then n else if !l.hasFor then Reach(a, b, c)
    else if n < Reach(a, b, c) then n else Reach(a, b, c)
  }

  /** a, a + c, ... for the rounds from k on. */
  function Values(a: int, c: int, k: nat, rounds: nat): seq<int>
    requires k <= rounds
    decreases rounds - k
  {
    if k == rounds then [] else [a + k * c] + Values(a, c, k + 1, rounds)
  }

  /** A constant step has the sign the code was made for. */
  predicate SignKnown(l: Loop, c: int) {
    match l.kind
    case Unit => c == 1
    case Positive => c > 0
    case Negative => c < 0
    case Dynamic => true
  }

  /** The start of round k. */
  predicate AtRound(l: Loop, s: M.Store, a: int, b: int, c: int, n: int, k: nat) {
    && Num(s, l.i) == a + k * c && StepOf(l, s) == c
    && (l.hasTo ==> Num(s, l.limit) == b) && (l.hasFor ==> Num(s, l.counter) == n - k)
  }

  lemma RoundRuns(l: Loop, s: M.Store, a: int, b: int, c: int, n: int, k: nat)
    requires c != 0 && SignKnown(l, c) && (l.hasTo || l.hasFor) && (l.hasFor ==> n >= 0)
    requires AtRound(l, s, a, b, c, n, k) && k <= Rounds(l, a, b, c, n)
    ensures Within(l, s) && Counts(l, s) <==> k < Rounds(l, a, b, c, n)
  {
    ReachIs(a, b, c, k);
    hide Reach;
  }

  /** What the values of the completed bodies are when the loop is left in round m of so
      many: all before, and that of round m itself if it was left behind the body. */
  predicate Recorded(a: int, c: int, k: nat, m: nat, rounds: nat, passes: seq<int>)
    requires k <= m
  {
    passes == Values(a, c, k, m) || (m < rounds && passes == Values(a, c, k, m + 1))
  }

  /** The loop runs its body exactly for a, a + c, a + 2c, ... as long as the count
      lasts, the limit is not passed and the body does not leave it, and leaves the next
      value in the control variable, or its value of the round that was not finished: for
      a step known to rise or fall, for one known only at run time, and with limit and
      count in either order. */
  lemma {:induction false} LoopFrom(sem: M.Semantics, alu: Alu, code: Code, x: Site,
                                    a: int, b: int, c: int, n: int, k: nat, s: M.Store, w: M.World)
      returns (t: M.Store, v: M.World, m: nat, passes: seq<int>)
    requires Setting(sem, alu, code, x.l) && Layout(code, x) && BodyRuns(sem, code, x, M.At(x.at, s, w))
    requires c != 0 && SignKnown(x.l, c) && (x.l.hasTo || x.l.hasFor) && (x.l.hasFor ==> n >= 0)
    requires AtRound(x.l, s, a, b, c, n, k) && k <= Rounds(x.l, a, b, c, n)
    ensures var rounds := Rounds(x.l, a, b, c, n);
      k <= m <= rounds && (m < rounds ==> x.exits) && Recorded(a, c, k, m, rounds, passes)
    ensures Goes(sem, code, x.ToMark(), M.At(x.at, s, w), M.At(x.Out() + 1, t, v), passes)
    ensures Num(t, x.l.i) == a + m * c
    decreases Rounds(x.l, a, b, c, n) - k
  {
    hide Setting, Layout, Goes, Rounds, Within, Counts, BodyRuns, PartsRun, Checks, SignKnown, StepOf, Recorded;
    RoundRuns(x.l, s, a, b, c, n, k);
    var rounds, mark := Rounds(x.l, a, b, c, n), x.ToMark();
    var left;
    t, v, passes, left := Round(sem, alu, code, x, s, w);
    m := k;
    RecordedHere(a, c, k, rounds, passes);
    if k < rounds && !left {
      var t1, v1 := t, v;
      RoundCounts(x.l, s, t1, a, b, c, n, k);
      BodyLater(sem, code, mark, x, M.At(x.at, s, w), M.At(x.at, t1, v1), passes);
      var rest;
      t, v, m, rest := LoopFrom(sem, alu, code, x, a, b, c, n, k + 1, t1, v1);
      GoesTrans(sem, code, mark, M.At(x.at, s, w), M.At(x.at, t1, v1), M.At(x.Out() + 1, t, v), passes, rest);
      passes := passes + rest;
      RecordedLater(a, c, k, m, rounds, rest);
    }
  }

  lemma RecordedHere(a: int, c: int, k: nat, rounds: nat, passes: seq<int>)
    requires passes == [] || (k < rounds && passes == [a + k * c])
    ensures Recorded(a, c, k, k, rounds, passes)
  {
    assert Values(a, c, k + 1, k + 1) == [];
  }

  lemma RecordedLater(a: int, c: int, k: nat, m: nat, rounds: nat, rest: seq<int>)
    requires k < m && Recorded(a, c, k + 1, m, rounds, rest)
    ensures Recorded(a, c, k, m, rounds, [a + k * c] + rest)
  {
  }

  lemma RoundCounts(l: Loop, s: M.Store, t: M.Store, a: int, b: int, c: int, n: int, k: nat)
    requires AtRound(l, s, a, b, c, n, k) && Advanced(l, s, t)
    ensures AtRound(l, t, a, b, c, n, k + 1)
  {
  }

  lemma LoopCorrect(sem: M.Semantics, alu: Alu, code: Code, x: Site,
                    a: int, b: int, c: int, n: int, s: M.Store, w: M.World)
      returns (t: M.Store, v: M.World, m: nat, passes: seq<int>)
    requires Setting(sem, alu, code, x.l) && Stands(code, x.at, Skeleton(x.l, x.body, x.tail))
    requires BodyRuns(sem, code, x, M.At(x.at, s, w))
    requires c != 0 && SignKnown(x.l, c) && (x.l.hasTo || x.l.hasFor) && (x.l.hasFor ==> n >= 0)
    requires AtRound(x.l, s, a, b, c, n, 0)
    ensures var rounds := Rounds(x.l, a, b, c, n);
      m <= rounds && (m < rounds ==> x.exits) && Recorded(a, c, 0, m, rounds, passes)
    ensures Goes(sem, code, x.ToMark(), M.At(x.at, s, w), M.At(x.at + |Skeleton(x.l, x.body, x.tail)|, t, v), passes)
    ensures Num(t, x.l.i) == a + m * c
  {
    SkeletonLayout(code, x);
    hide Skeleton, Checks, Rounds, AtRound, Setting, Layout, Goes, Stands, BodyRuns, SignKnown, Recorded;
    t, v, m, passes := LoopFrom(sem, alu, code, x, a, b, c, n, 0, s, w);
  }
}
