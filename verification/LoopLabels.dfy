/** The labels of a counted loop are all different, so what the theorems about it ask of
    the program around can be met. */
module LoopLabels {
  import opened Assembly
  import opened Registers
  import opened Expressions
  import opened Instructions
  import opened ExpressionCode
  import opened ExpressionProof
  import opened Compiling
  import opened DoLoop
  import opened CountedLoop
  import M = Machine

  /* ---- The loop's own labels ---- */

  const Parts: seq<string> := ["dostart", "doinc", "doend", "doneg1", "doneg2"]

  lemma PartsApart(id: nat, j: nat, k: nat)
    requires j < k < 5
    ensures LabelOf(LabelName(id, Parts[j]), id) && LabelOf(LabelName(id, Parts[k]), id)
    ensures LabelName(id, Parts[j]) != LabelName(id, Parts[k])
  {
    assert |Parts[0]| == 7 && |Parts[1]| == 5 && |Parts[2]| == 5 && |Parts[3]| == 6 && |Parts[4]| == 6;
    assert Parts[1][2] != Parts[2][2] && Parts[3][5] != Parts[4][5];
    PartsDiffer(id, Parts[j], Parts[k]);
  }

  /** The five labels of a loop are five, and carry its number. */
  lemma OwnApart(l: Loop)
    ensures var all := [StartLabel(l), IncLabel(l), OutLabel(l), Neg1Label(l), Neg2Label(l)];
      && (forall j :: 0 <= j < 5 ==> LabelOf(all[j], l.id))
      && (forall j, k :: 0 <= j < k < 5 ==> all[j] != all[k])
  {
    var all := [StartLabel(l), IncLabel(l), OutLabel(l), Neg1Label(l), Neg2Label(l)];
    assert forall j :: 0 <= j < 5 ==> all[j] == LabelName(l.id, Parts[j]);
    forall j, k | 0 <= j < k < 5 ensures all[j] != all[k] && LabelOf(all[j], l.id) && LabelOf(all[k], l.id) {
      PartsApart(l.id, j, k);
    }
  }

  /** A sequence of label items defines just these. */
  function Marks(names: seq<Name>): Code { seq(|names|, k requires 0 <= k < |names| => Label(names[k])) }

  lemma {:induction false} MarksLabels(names: seq<Name>)
    ensures Labels(Marks(names)) == multiset(names)
  {
    if names == [] {
    } else {
      assert Marks(names)[1..] == Marks(names[1..]) && names == [names[0]] + names[1..];
      MarksLabels(names[1..]);
    }
  }

  lemma {:induction false} NamesOnce(names: seq<Name>, name: Name)
    requires forall j, k :: 0 <= j < k < |names| ==> names[j] != names[k]
    ensures multiset(names)[name] <= 1 && (multiset(names)[name] > 0 <==> name in names)
  {
    if names != [] {
      assert names == [names[0]] + names[1..];
      NamesOnce(names[1..], name);
    }
  }

  /** Labels that are different and carry one number are that number's own. */
  lemma OwnMarks(names: seq<Name>, id: nat)
    requires forall j, k :: 0 <= j < k < |names| ==> names[j] != names[k]
    requires forall j :: 0 <= j < |names| ==> LabelOf(names[j], id)
    ensures OwnLabels(Marks(names), multiset{id})
  {
    MarksLabels(names);
    forall name
      ensures Labels(Marks(names))[name] <= 1
      ensures Labels(Marks(names))[name] > 0 ==> exists i :: i in multiset{id} && LabelOf(name, i)
    {
      NamesOnce(names, name);
      assert id in multiset{id};
    }
  }

  /** The labels that the limit check defines. */
  function CheckNames(l: Loop): seq<Name> {
    if l.hasTo && l.kind == Dynamic then [Neg1Label(l), Neg2Label(l)] else []
  }

  lemma ToLabels(l: Loop)
    ensures Labels(ToCheck(l)) == multiset(CheckNames(l))
  {
    hide Neg1Label, Neg2Label, OutLabel;
    if l.hasTo && l.kind == Dynamic {
      var f := ToCheck(l);
      NoLabels(f[..4]);
      assert f == f[..4] + Marks([Neg1Label(l)]) + f[5..7] + Marks([Neg2Label(l)]);
      NoLabels(f[5..7]);
      LabelsAppend(f[..4] + Marks([Neg1Label(l)]) + f[5..7], Marks([Neg2Label(l)]));
      LabelsAppend(f[..4] + Marks([Neg1Label(l)]), f[5..7]);
      LabelsAppend(f[..4], Marks([Neg1Label(l)]));
      MarksLabels([Neg1Label(l)]);
      MarksLabels([Neg2Label(l)]);
      assert CheckNames(l) == [Neg1Label(l)] + [Neg2Label(l)];
    } else {
      NoLabels(ToCheck(l));
    }
  }

  lemma CheckLabels(l: Loop)
    ensures Labels(Checks(l)) == multiset(CheckNames(l))
  {
    ToLabels(l);
    NoLabels(ForCheck(l));
    LabelsAppend(ForCheck(l), ToCheck(l));
    LabelsAppend(ToCheck(l), ForCheck(l));
  }

  function OwnNames(l: Loop): seq<Name> { [StartLabel(l), IncLabel(l), OutLabel(l)] + CheckNames(l) }

  lemma OwnNamesApart(l: Loop)
    ensures OwnLabels(Marks(OwnNames(l)), multiset{l.id})
  {
    OwnApart(l);
    var all := [StartLabel(l), IncLabel(l), OutLabel(l), Neg1Label(l), Neg2Label(l)];
    assert forall k :: 0 <= k < |OwnNames(l)| ==> OwnNames(l)[k] == all[k];
    OwnMarks(OwnNames(l), l.id);
  }

  /** The skeleton defines its own labels and those of body and tail. */
  lemma SkeletonCount(l: Loop, body: Code, tail: Code)
    ensures Labels(Skeleton(l, body, tail)) == Labels(body + tail + Marks(OwnNames(l)))
  {
    hide *;
    var d := [Next(l), Instr(Br, Id(StartLabel(l)), None, None)];
    SkeletonIs(l, body, tail);
    StepLabels(l);
    CheckLabels(l);
    OwnCount(l);
    MarksLabels([StartLabel(l)]);
    MarksLabels([IncLabel(l)]);
    MarksLabels([OutLabel(l)]);
    SevenLabels(Marks([StartLabel(l)]), Checks(l), body, Marks([IncLabel(l)]), tail, d, Marks([OutLabel(l)]));
    LabelsAppend(body + tail, Marks(OwnNames(l)));
    LabelsAppend(body, tail);
  }

  lemma SevenLabels(a: Code, b: Code, c: Code, d: Code, e: Code, f: Code, g: Code)
    ensures Labels(a + b + c + d + e + f + g)
      == Labels(a) + Labels(b) + Labels(c) + Labels(d) + Labels(e) + Labels(f) + Labels(g)
  {
    hide Labels;
    LabelsAppend(a + b + c + d + e + f, g);
    LabelsAppend(a + b + c + d + e, f);
    LabelsAppend(a + b + c + d, e);
    LabelsAppend(a + b + c, d);
    LabelsAppend(a + b, c);
    LabelsAppend(a, b);
  }

  lemma OwnCount(l: Loop)
    ensures Labels(Marks(OwnNames(l)))
      == multiset([StartLabel(l)]) + multiset([IncLabel(l)]) + multiset([OutLabel(l)]) + multiset(CheckNames(l))
  {
    hide StartLabel, IncLabel, OutLabel, CheckNames, Labels, Marks;
    MarksLabels(OwnNames(l));
    assert OwnNames(l) == [StartLabel(l)] + [IncLabel(l)] + [OutLabel(l)] + CheckNames(l);
  }

  lemma SkeletonIs(l: Loop, body: Code, tail: Code)
    ensures Skeleton(l, body, tail) == Marks([StartLabel(l)]) + Checks(l) + body + Marks([IncLabel(l)]) + tail
      + [Next(l), Instr(Br, Id(StartLabel(l)), None, None)] + Marks([OutLabel(l)])
  {
    hide Checks;
  }

  lemma StepLabels(l: Loop)
    ensures Labels([Next(l), Instr(Br, Id(StartLabel(l)), None, None)]) == multiset{}
  {
    NoLabels([Next(l), Instr(Br, Id(StartLabel(l)), None, None)]);
  }

  lemma SkeletonLabels(l: Loop, body: Code, tail: Code, ids: multiset<nat>)
    requires OwnLabels(body + tail, ids) && Once(ids + multiset{l.id})
    ensures OwnLabels(Skeleton(l, body, tail), ids + multiset{l.id})
  {
    OwnNamesApart(l);
    hide OwnLabels, Labels, Skeleton, OwnNames, Marks;
    LabelsJoin(body + tail, ids, Marks(OwnNames(l)), multiset{l.id});
    SkeletonCount(l, body, tail);
    OwnSame(body + tail + Marks(OwnNames(l)), Skeleton(l, body, tail), ids + multiset{l.id});
  }

  /* ---- The whole code ---- */

  /** The numbers of the and and or nodes of the clauses. */
  function ClauseNumbers(cs: seq<Clause>): multiset<nat> {
    if cs == [] then multiset{} else Numbers(cs[0].e) + ClauseNumbers(cs[1..])
  }

  lemma ClauseLabels(c: Clause, p: Pool)
    requires p.Valid() && VarsUsed(c.e, p) && Once(Numbers(c.e))
    ensures OwnLabels(ClauseCode(c, p), Numbers(c.e))
  {
    hide Walk, OwnLabels, Numbers, Once, Labels, Pool.Valid;
    if Copied(c) {
      NoLabels(ClauseCode(c, p));
      OwnNone(ClauseCode(c, p), Numbers(c.e));
    } else {
      WalkLabels(c.e, false, p, 0);
    }
  }

  /** The code of an expression that has its own register or is left one. */
  lemma WalkLabels(e: Expr, later: bool, p: Pool, reg: nat)
    requires p.Valid() && Once(Numbers(e))
    ensures var n := Final(e, later, p, reg);
      Placed(n) && OwnLabels(Emit(n), Numbers(e)) && (!later ==> n == Walk(e, later, p).0)
  {
    WalkPool(e, later, p);
    hide Walk, OwnLabels, Numbers, Once, NodeNumbers, Emit, Placed, Labels;
    WalkPlaced(e, later, p, reg);
    WalkNumbers(e, later, p, reg);
    EmitLabels(Final(e, later, p, reg));
  }

  lemma {:induction false} HeaderLabels(cs: seq<Clause>, p: Pool)
    requires p.Valid() && AllUsed(cs, p) && Once(ClauseNumbers(cs))
    ensures OwnLabels(HeaderCode(cs, p), ClauseNumbers(cs))
    decreases |cs|
  {
    if cs == [] {
      OwnNone([], multiset{});
    } else {
      var q := Place(cs[0], p).1;
      UsedLater(cs, p);
      OnceDisjoint(Numbers(cs[0].e), ClauseNumbers(cs[1..]));
      assert VarsUsed(cs[0].e, p);
      hide OwnLabels, Once, Numbers, Labels, ClauseCode, Place, VarsUsed, AllUsed, Pool.Valid;
      ClauseLabels(cs[0], p);
      HeaderLabels(cs[1..], q);
      LabelsJoin(ClauseCode(cs[0], p), Numbers(cs[0].e), HeaderCode(cs[1..], q), ClauseNumbers(cs[1..]));
    }
  }

  lemma FirstLabels(ea: Expr, x: nat, p: Pool)
    requires p.Valid() && Once(Numbers(ea))
    ensures OwnLabels(FirstCode(ea, x, p), Numbers(ea))
  {
    hide Walk, OwnLabels, Numbers, Once, Emit, Labels, Pool.Valid, Final;
    var n := Final(ea, !ea.Var?, p, x);
    WalkLabels(ea, !ea.Var?, p, x);
    var tail := if n.slot.reg == x then [] else [FullCopy(x, n.slot.reg)];
    NoLabels(tail);
    LabelsAppend(Emit(n), tail);
    OwnSame(Emit(n), FirstCode(ea, x, p), Numbers(ea));
  }

  /** With node numbers that are used once each, all labels of a counted loop, its clauses
      and its body are different. */
  lemma LoopLabels(id: nat, ea: Expr, x: nat, cs: seq<Clause>, p: Pool, body: Code, tail: Code, ids: multiset<nat>)
    requires InUse(ea, x, cs, p) && OwnLabels(body + tail, ids)
    requires Once(Numbers(ea) + ClauseNumbers(cs) + (ids + multiset{id}))
    ensures UniqueLabels(LoopCode(id, ea, x, cs, p, body, tail))
  {
    var q := AfterAssign(ea, p);
    var l := LoopOf(id, x, cs, q);
    AssignPool(ea, x, cs, p);
    var a, b, c := Numbers(ea), ClauseNumbers(cs), ids + multiset{id};
    OnceDisjoint(a + b, c);
    OnceDisjoint(a, b);
    hide OwnLabels, Once, Labels, Numbers, ClauseNumbers, FirstCode, HeaderCode, Skeleton, AfterAssign, AllUsed,
      Pool.Valid;
    FirstLabels(ea, x, p);
    HeaderLabels(cs, q);
    SkeletonLabels(l, body, tail, ids);
    LabelsJoin(FirstCode(ea, x, p), a, HeaderCode(cs, q), b);
    LabelsJoin(FirstCode(ea, x, p) + HeaderCode(cs, q), a + b, Skeleton(l, body, tail), c);
    OwnUnique(LoopCode(id, ea, x, cs, p, body, tail), a + b + c);
  }

  lemma OwnUnique(code: Code, ids: multiset<nat>)
    requires OwnLabels(code, ids)
    ensures UniqueLabels(code)
  {
    OnceUnique(code);
  }

  /** Everything that the theorem about the whole loop asks for can be had at once: for
      clauses in any order, an empty body and the machine above it holds at every start. */
  lemma LoopMet(id: nat, ea: Expr, x: nat, cs: seq<Clause>, p: Pool, exits: bool, s: M.Store, w: M.World)
    requires InUse(ea, x, cs, p) && Once(Numbers(ea) + ClauseNumbers(cs) + multiset{id})
    ensures var (sem, code) := (IntegerMachine(Plain), LoopCode(id, ea, x, cs, p, [], []));
      && Around(sem, Plain, code) && Arithmetic(Plain) && LoopOps(sem) && Stands(code, 0, code)
      && BodyRuns(sem, code, SiteOf(0, id, ea, x, cs, p, [], [], exits), M.At(0, s, w))
  {
    hide LoopCode, InUse, Computes, OrderFree, LoopOps, Arithmetic, Plain, IntegerMachine, UniqueLabels;
    var sem, code := IntegerMachine(Plain), LoopCode(id, ea, x, cs, p, [], []);
    IntegerMachineComputes(Plain);
    PlainIs();
    var none: Code := [];
    OwnNone(none, multiset{});
    assert none + none == none && multiset{} + multiset{id} == multiset{id};
    LoopLabels(id, ea, x, cs, p, [], [], multiset{});
    assert code[0..0 + |code|] == code;
    EmptyBody(sem, code, SiteOf(0, id, ea, x, cs, p, [], [], exits), M.At(0, s, w));
  }

  lemma EmptyBody(sem: M.Semantics, code: Code, site: Site, begin: M.State)
    requires site.body == [] && site.tail == []
    ensures BodyRuns(sem, code, site, begin)
  {
    forall n: nat ensures PartsRun(sem, code, site, M.Steps(sem, code, n, begin)) {
      var t := M.Steps(sem, code, n, begin);
      if t.At? {
        HereAlready(sem, code, site, site.First(), site.Inc(), t.store, t.world);
        HereAlready(sem, code, site, site.Tail(), site.Up(), t.store, t.world);
      }
    }
  }

  lemma HereAlready(sem: M.Semantics, code: Code, site: Site, from: nat, to: nat, s: M.Store, w: M.World)
    requires from == to
    ensures Comes(sem, code, site, from, to, s, w)
  {
    assert ComesIn(sem, code, site, from, to, s, w, 0);
  }
}
