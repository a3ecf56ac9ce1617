/** A counted loop with the code of its clauses: do i = a, then to b, by c and for n in the
    order they are written. */
module CountedLoop {
  import opened Assembly
  import opened Registers
  import opened Expressions
  import opened Instructions
  import opened ExpressionCode
  import opened ExpressionProof
  import opened Compiling
  import opened DoLoop
  import M = Machine

  datatype Kind = To | By | For

  datatype Clause = Clause(kind: Kind, e: Expr)

  /** A count that is a variable is copied, because it is counted down. */
  predicate Copied(c: Clause) { c.kind == For && c.e.Var? }

  /** The register a clause's value is in, and the registers in use from there on. */
  function Place(c: Clause, p: Pool): (nat, Pool) {
    if Copied(c) then Get(p)
    else var (n, q) := Walk(c.e, false, p); (if n.slot.At? then n.slot.reg else 0, q)
  }

  function ClauseCode(c: Clause, p: Pool): Code {
    var n := Walk(c.e, false, p).0;
    if Copied(c) then [Copy(Get(p).0, c.e.reg)] else if Placed(n) then Emit(n) else []
  }

  function HeaderCode(cs: seq<Clause>, p: Pool): Code {
    if cs == [] then [] else ClauseCode(cs[0], p) + HeaderCode(cs[1..], Place(cs[0], p).1)
  }

  predicate Has(cs: seq<Clause>, kind: Kind) { exists i :: 0 <= i < |cs| && cs[i].kind == kind }

  /** The register and the expression of the first clause of a kind. */
  function RegOf(cs: seq<Clause>, kind: Kind, p: Pool): nat {
    if cs == [] then 0
    else if cs[0].kind == kind then Place(cs[0], p).0
    else RegOf(cs[1..], kind, Place(cs[0], p).1)
  }

  function ExprOf(cs: seq<Clause>, kind: Kind): Expr {
    if cs == [] then Const(1) else if cs[0].kind == kind then cs[0].e else ExprOf(cs[1..], kind)
  }

  predicate HasFirst(cs: seq<Clause>, kind: Kind, other: Kind) {
    cs != [] && (cs[0].kind == kind || (cs[0].kind != other && HasFirst(cs[1..], kind, other)))
  }

  /** What the sign of the step is known to be. */
  function StepKind(cs: seq<Clause>): DoLoop.By {
    if !Has(cs, By) then Unit
    else
      match ExprOf(cs, By)
      case Const(c) => if c >= 0 then Positive else Negative
      case _ => Dynamic
  }

  function LoopOf(id: nat, x: nat, cs: seq<Clause>, p: Pool): Loop {
    Loop(id, x, Has(cs, To), RegOf(cs, To, p), StepKind(cs), RegOf(cs, By, p),
         Has(cs, For), RegOf(cs, For, p), HasFirst(cs, For, To))
  }

  /** The first clause of a kind. */
  predicate FirstIs(cs: seq<Clause>, kind: Kind, k: nat) {
    k < |cs| && cs[k].kind == kind && forall j :: 0 <= j < k ==> cs[j].kind != kind
  }

  lemma {:induction false} ExprOfFirst(cs: seq<Clause>, kind: Kind, k: nat)
    requires FirstIs(cs, kind, k)
    ensures ExprOf(cs, kind) == cs[k].e
  {
    if k > 0 {
      assert forall j :: 0 <= j < k ==> cs[1..][j] == cs[j + 1];
      ExprOfFirst(cs[1..], kind, k - 1);
    }
  }

  /** The sign of the step is taken as known exactly when there is no BY, or a constant
      behind it; zero counts as positive. */
  lemma StepKinds(cs: seq<Clause>)
    ensures StepKind(cs) == Unit <==> forall k :: 0 <= k < |cs| ==> cs[k].kind != By
    ensures forall k: nat :: FirstIs(cs, By, k) ==>
      && (StepKind(cs) == Positive <==> cs[k].e.Const? && cs[k].e.value >= 0)
      && (StepKind(cs) == Negative <==> cs[k].e.Const? && cs[k].e.value < 0)
  {
    forall k: nat | FirstIs(cs, By, k) ensures ExprOf(cs, By) == cs[k].e && Has(cs, By) {
      ExprOfFirst(cs, By, k);
    }
  }

  /** The count is tested before the limit exactly when some FOR has no TO before it. */
  lemma {:induction false} CheckOrder(cs: seq<Clause>)
    ensures HasFirst(cs, For, To) <==>
      exists k :: 0 <= k < |cs| && cs[k].kind == For && forall j :: 0 <= j < k ==> cs[j].kind != To
  {
    if cs != [] {
      CheckOrder(cs[1..]);
      if k :| 0 <= k < |cs| && cs[k].kind == For && forall j :: 0 <= j < k ==> cs[j].kind != To {
        if k > 0 { assert cs[1..][k - 1].kind == For && forall j :: 0 <= j < k - 1 ==> cs[1..][j] == cs[j + 1]; }
      }
      if cs[0].kind != To && HasFirst(cs[1..], For, To) {
        var k :| 0 <= k < |cs[1..]| && cs[1..][k].kind == For && forall j :: 0 <= j < k ==> cs[1..][j].kind != To;
        assert cs[k + 1].kind == For && forall j :: 0 < j < k + 1 ==> cs[j] == cs[1..][j - 1];
      }
    }
  }

  predicate AllUsed(cs: seq<Clause>, p: Pool) {
    forall i :: 0 <= i < |cs| ==> VarsUsed(cs[i].e, p)
  }

  /* ---- One clause ---- */

  /** The value's register is in use from there on; it was unused before, unless it is a
      variable's own. */
  ghost predicate PlaceOk(c: Clause, p: Pool) {
    var (r, q) := Place(c, p);
    && Extends(p, q) && q.Used(r)
    && (if c.e.Var? && !Copied(c) then r == c.e.reg else !p.Used(r))
  }

  lemma PlaceHolds(c: Clause, p: Pool)
    requires p.Valid() && VarsUsed(c.e, p)
    ensures PlaceOk(c, p)
  {
    if Copied(c) {
      GetExtends(p, false);
    } else {
      hide Walk, Pool.Valid;
      WalkPool(c.e, false, p);
      WalkPlaced(c.e, false, p, 0);
      VarRegister(c.e, p);
    }
  }

  /** What the program around must provide. */
  ghost predicate Around(sem: M.Semantics, alu: Alu, code: Code) {
    Computes(sem, alu) && OrderFree(alu) && UniqueLabels(code)
  }

  lemma ClauseRuns(sem: M.Semantics, alu: Alu, code: Code, at: nat, c: Clause, p: Pool, s: M.Store, w: M.World)
      returns (t: M.Store)
    requires Around(sem, alu, code) && p.Valid() && VarsUsed(c.e, p) && Stands(code, at, ClauseCode(c, p))
    ensures Runs(sem, code, at, s, at + |ClauseCode(c, p)|, t, w)
    ensures Denotes(alu, c.e, s, Num(t, Place(c, p).0)) && Keeps(p, s, t)
  {
    PlaceHolds(c, p);
    if Copied(c) {
      var r := Get(p).0;
      t := SetNum(s, r, Num(s, c.e.reg));
      hide Runs, Stands;
      assert [Copy(r, c.e.reg)] == CopyUnless(r, c.e.reg);
      RunsCopy(sem, alu, code, at, r, c.e.reg, s, w);
    } else {
      hide Walk, Emit, Stands, Runs, Denotes, Computes, OrderFree, UniqueLabels, Pool.Used, Pool.Valid, VarsUsed;
      var n := Walk(c.e, false, p).0;
      WalkPlaced(c.e, false, p, 0);
      assert Final(c.e, false, p, n.slot.reg) == n;
      t := Correct(sem, alu, code, at, c.e, false, p, n.slot.reg, s, w);
      KeepsAll(c, p, n.slot.reg, s, t);
    }
  }

  lemma KeepsAll(c: Clause, p: Pool, r: nat, s: M.Store, t: M.Store)
    requires KeepsBut(p, r, s, t) && (c.e.Var? ==> t == s) && (!c.e.Var? ==> !p.Used(r))
    ensures Keeps(p, s, t)
  {
  }

  /* ---- All clauses ---- */

  lemma UsedLater(cs: seq<Clause>, p: Pool)
    requires cs != [] && p.Valid() && AllUsed(cs, p)
    ensures PlaceOk(cs[0], p) && AllUsed(cs[1..], Place(cs[0], p).1)
  {
    PlaceHolds(cs[0], p);
    hide Place, VarsUsed;
    var q := Place(cs[0], p).1;
    forall i | 0 <= i < |cs[1..]| ensures VarsUsed(cs[1..][i].e, q) {
      assert VarsUsed(cs[i + 1].e, p);
      VarsStayUsed(cs[i + 1].e, p, q);
    }
  }

  lemma {:induction false} ExprUsed(cs: seq<Clause>, kind: Kind, p: Pool)
    requires AllUsed(cs, p)
    ensures VarsUsed(ExprOf(cs, kind), p)
  {
    if cs != [] {
      assert forall i :: 0 <= i < |cs[1..]| ==> cs[1..][i] == cs[i + 1];
      ExprUsed(cs[1..], kind, p);
    }
  }

  lemma HasTail(cs: seq<Clause>, kind: Kind)
    requires cs != [] && cs[0].kind != kind
    ensures Has(cs, kind) <==> Has(cs[1..], kind)
  {
    if i :| 0 <= i < |cs| && cs[i].kind == kind { assert cs[1..][i - 1].kind == kind; }
    if i :| 0 <= i < |cs[1..]| && cs[1..][i].kind == kind { assert cs[i + 1].kind == kind; }
  }

  /** The registers of the clauses: in use afterwards; each was unused before, unless it
      is a variable's own. */
  lemma {:induction false} HeaderPlaces(cs: seq<Clause>, kind: Kind, p: Pool)
    requires p.Valid() && AllUsed(cs, p) && Has(cs, kind)
    ensures var (r, e) := (RegOf(cs, kind, p), ExprOf(cs, kind));
      if e.Var? && kind != For then r == e.reg && p.Used(r) else !p.Used(r)
  {
    UsedLater(cs, p);
    hide Place;
    if cs[0].kind != kind {
      HasTail(cs, kind);
      HeaderPlaces(cs[1..], kind, Place(cs[0], p).1);
      ExprUsed(cs, kind, p);
    }
  }

  /** Two clauses' registers differ when one is the count's. */
  lemma {:induction false} CountApart(cs: seq<Clause>, kind: Kind, p: Pool)
    requires p.Valid() && AllUsed(cs, p) && Has(cs, For) && Has(cs, kind) && kind != For
    ensures RegOf(cs, kind, p) != RegOf(cs, For, p)
  {
    UsedLater(cs, p);
    var q := Place(cs[0], p).1;
    hide Place;
    if cs[0].kind == For {
      HasTail(cs, kind);
      HeaderPlaces(cs[1..], kind, q);
      ExprUsed(cs, kind, p);
    } else {
      HasTail(cs, For);
      HeaderPlaces(cs[1..], For, q);
      if cs[0].kind != kind {
        HasTail(cs, kind);
        CountApart(cs[1..], kind, q);
      }
    }
  }

  /** The code of the clauses leaves a value of each expression in the clause's register
      and changes nothing that was in use. */
  lemma {:induction false} HeaderRuns(sem: M.Semantics, alu: Alu, code: Code, at: nat, cs: seq<Clause>, p: Pool,
                                      s: M.Store, w: M.World) returns (t: M.Store)
    requires Around(sem, alu, code) && p.Valid() && AllUsed(cs, p) && Stands(code, at, HeaderCode(cs, p))
    ensures Runs(sem, code, at, s, at + |HeaderCode(cs, p)|, t, w) && Keeps(p, s, t)
    ensures forall kind :: Has(cs, kind) ==> Denotes(alu, ExprOf(cs, kind), s, Num(t, RegOf(cs, kind, p)))
    decreases |cs|
  {
    hide Runs, Stands, Around, Denotes, ClauseCode, Place, VarsUsed;
    if cs == [] {
      t := s;
      RunsNowhere(sem, code, at, s, w);
    } else {
      var q, f := Place(cs[0], p).1, ClauseCode(cs[0], p);
      UsedLater(cs, p);
      StandsSplit(code, at, f, HeaderCode(cs[1..], q));
      var s1 := ClauseRuns(sem, alu, code, at, cs[0], p, s, w);
      t := HeaderRuns(sem, alu, code, at + |f|, cs[1..], q, s1, w);
      RunsTrans(sem, code, at, s, at + |f|, s1, at + |HeaderCode(cs, p)|, t, w);
      forall kind | Has(cs, kind) ensures Denotes(alu, ExprOf(cs, kind), s, Num(t, RegOf(cs, kind, p))) {
        if cs[0].kind != kind {
          HasTail(cs, kind);
          ExprUsed(cs, kind, p);
          DenotesSame(alu, ExprOf(cs, kind), p, s, s1, Num(t, RegOf(cs, kind, p)));
        }
      }
    }
  }

  /* ---- The loop ---- */

  /** Limit and step are not the control variable itself; no variable is in the scratch
      register. */
  predicate NotControl(cs: seq<Clause>, x: nat) {
    forall i :: 0 <= i < |cs| && cs[i].e.Var? && cs[i].kind != For ==> cs[i].e.reg != x && cs[i].e.reg != 0
  }

  lemma {:induction false} NotControlOf(cs: seq<Clause>, x: nat, kind: Kind)
    requires NotControl(cs, x) && Has(cs, kind) && kind != For && ExprOf(cs, kind).Var?
    ensures ExprOf(cs, kind).reg != x && ExprOf(cs, kind).reg != 0
  {
    if cs[0].kind != kind {
      HasTail(cs, kind);
      assert forall i :: 0 <= i < |cs[1..]| ==> cs[1..][i] == cs[i + 1];
      NotControlOf(cs[1..], x, kind);
    }
  }

  /** So the loop's registers are as far apart as it needs. */
  lemma LoopDistinct(id: nat, x: nat, cs: seq<Clause>, p: Pool)
    requires p.Valid() && AllUsed(cs, p) && p.Used(0) && p.Used(x) && x != 0 && NotControl(cs, x)
    ensures Distinct(LoopOf(id, x, cs, p))
  {
    forall kind: Kind | Has(cs, kind) ensures RegOf(cs, kind, p) != 0 && RegOf(cs, kind, p) != x {
      HeaderPlaces(cs, kind, p);
      if kind != For && ExprOf(cs, kind).Var? { NotControlOf(cs, x, kind); }
    }
    forall kind: Kind | Has(cs, kind) && Has(cs, For) && kind != For
      ensures RegOf(cs, kind, p) != RegOf(cs, For, p)
    {
      CountApart(cs, kind, p);
    }
  }

  /** The numbers the loop starts with. */
  function CountOf(l: Loop, s: M.Store): int { if l.hasFor then Num(s, l.counter) else 0 }

  function LimitOf(l: Loop, s: M.Store): int { if l.hasTo then Num(s, l.limit) else 0 }

  /** From the loop's start label on: the body runs for a, a + c, a + 2c, ... while limit
      and count last and it does not leave. */
  lemma StartedLoop(sem: M.Semantics, alu: Alu, code: Code, site: Site, id: nat, x: nat, cs: seq<Clause>, p: Pool,
                    s: M.Store, w: M.World) returns (t: M.Store, v: M.World, m: nat, passes: seq<int>)
    requires Computes(sem, alu) && Arithmetic(alu) && UniqueLabels(code)
    requires p.Valid() && AllUsed(cs, p) && p.Used(0) && p.Used(x) && x != 0 && NotControl(cs, x)
    requires site.l == LoopOf(id, x, cs, p)
    requires LoopOps(sem) && Stands(code, site.at, Skeleton(site.l, site.body, site.tail))
    requires BodyRuns(sem, code, site, M.At(site.at, s, w))
    requires (site.l.hasTo || site.l.hasFor) && StepOf(site.l, s) != 0 && CountOf(site.l, s) >= 0
    requires Has(cs, By) ==> Denotes(alu, ExprOf(cs, By), s, Num(s, RegOf(cs, By, p)))
    ensures Counted(sem, code, site, s, w, t, v, m, passes)
  {
    LoopDistinct(id, x, cs, p);
    StepSign(alu, id, x, cs, p, s);
    hide LoopOf;
    t, v, m, passes := RunLoop(sem, alu, code, site, s, w);
  }

  lemma RunLoop(sem: M.Semantics, alu: Alu, code: Code, site: Site, s: M.Store, w: M.World)
      returns (t: M.Store, v: M.World, m: nat, passes: seq<int>)
    requires DoLoop.Setting(sem, alu, code, site.l) && Stands(code, site.at, Skeleton(site.l, site.body, site.tail))
    requires BodyRuns(sem, code, site, M.At(site.at, s, w))
    requires site.l.hasTo || site.l.hasFor
    requires StepOf(site.l, s) != 0 && CountOf(site.l, s) >= 0 && SignKnown(site.l, StepOf(site.l, s))
    ensures Counted(sem, code, site, s, w, t, v, m, passes)
  {
    hide DoLoop.Setting, Stands, Goes, BodyRuns, Skeleton, Checks, SignKnown, Rounds, Values, Recorded;
    var l := site.l;
    t, v, m, passes := LoopCorrect(sem, alu, code, site, Num(s, l.i), LimitOf(l, s), StepOf(l, s), CountOf(l, s), s, w);
  }

  /** A constant step has the sign that the code was made for. */
  lemma StepSign(alu: Alu, id: nat, x: nat, cs: seq<Clause>, p: Pool, s: M.Store)
    requires StepOf(LoopOf(id, x, cs, p), s) != 0
    requires Has(cs, By) ==> Denotes(alu, ExprOf(cs, By), s, Num(s, RegOf(cs, By, p)))
    ensures SignKnown(LoopOf(id, x, cs, p), StepOf(LoopOf(id, x, cs, p), s))
  {
  }

  /** The pool after the assignment, in which the clauses are compiled. */
  function AfterAssign(ea: Expr, p: Pool): Pool { Walk(ea, !ea.Var?, p).1 }

  lemma AssignPlaced(ea: Expr, x: nat, p: Pool)
    ensures Placed(Final(ea, !ea.Var?, p, x))
  {
    WalkPlaced(ea, !ea.Var?, p, x);
  }

  /** The code of the control variable's first value. */
  function FirstCode(ea: Expr, x: nat, p: Pool): Code {
    AssignPlaced(ea, x, p);
    AssignCode(Final(ea, !ea.Var?, p, x), x)
  }

  /** The whole code: the assignment, the clauses, the loop. */
  function LoopCode(id: nat, ea: Expr, x: nat, cs: seq<Clause>, p: Pool, body: Code, tail: Code): Code {
    FirstCode(ea, x, p) + HeaderCode(cs, AfterAssign(ea, p))
    + Skeleton(LoopOf(id, x, cs, AfterAssign(ea, p)), body, tail)
  }

  /** The registers that the clauses rely on are in use. */
  predicate InUse(ea: Expr, x: nat, cs: seq<Clause>, p: Pool) {
    p.Valid() && VarsUsed(ea, p) && AllUsed(cs, p) && p.Used(0) && p.Used(x)
  }

  lemma AssignPool(ea: Expr, x: nat, cs: seq<Clause>, p: Pool)
    requires InUse(ea, x, cs, p)
    ensures var q := AfterAssign(ea, p); q.Valid() && AllUsed(cs, q) && q.Used(0) && q.Used(x)
  {
    hide Walk, VarsUsed;
    WalkPool(ea, !ea.Var?, p);
    forall i | 0 <= i < |cs| ensures VarsUsed(cs[i].e, AfterAssign(ea, p)) {
      VarsStayUsed(cs[i].e, p, AfterAssign(ea, p));
    }
  }

  lemma AssignRuns(sem: M.Semantics, alu: Alu, code: Code, at: nat, ea: Expr, x: nat, p: Pool, s: M.Store, w: M.World)
      returns (t: M.Store)
    requires Around(sem, alu, code) && p.Valid() && VarsUsed(ea, p) && Stands(code, at, FirstCode(ea, x, p))
    ensures Runs(sem, code, at, s, at + |FirstCode(ea, x, p)|, t, w)
    ensures Denotes(alu, ea, s, Num(t, x)) && KeepsBut(p, x, s, t)
  {
    AssignPlaced(ea, x, p);
    hide Runs, Stands, Denotes, Walk, Emit, Placed, Final, VarsUsed, KeepsBut, Computes, OrderFree, UniqueLabels;
    var n := Final(ea, !ea.Var?, p, x);
    StandsSplit(code, at, Emit(n), FirstCode(ea, x, p)[|Emit(n)|..]);
    t := AssignCorrect(sem, alu, code, at, ea, x, p, s, w);
  }

  /** The code before the start label: the control variable gets a value of its
      expression, and then each clause a value of its own, as of after the assignment. */
  lemma Prepared(sem: M.Semantics, alu: Alu, code: Code, at: nat, ea: Expr, x: nat, cs: seq<Clause>, p: Pool,
                 s: M.Store, w: M.World) returns (s1: M.Store, t: M.Store)
    requires Around(sem, alu, code) && InUse(ea, x, cs, p)
    requires Stands(code, at, FirstCode(ea, x, p) + HeaderCode(cs, AfterAssign(ea, p)))
    ensures var (f, g, q) := (FirstCode(ea, x, p), HeaderCode(cs, AfterAssign(ea, p)), AfterAssign(ea, p));
      && Runs(sem, code, at, s, at + |f| + |g|, t, w) && KeepsBut(p, x, s, s1) && Keeps(q, s1, t)
      && Denotes(alu, ea, s, Num(t, x))
      && (forall kind :: Has(cs, kind) ==> Denotes(alu, ExprOf(cs, kind), s1, Num(t, RegOf(cs, kind, q))))
  {
    hide Runs, Stands, Denotes, VarsUsed, KeepsBut, Keeps, Around, FirstCode, HeaderCode, Has, RegOf, ExprOf, AfterAssign,
      Pool.Valid, Pool.Used, AllUsed;
    var (f, g, q) := (FirstCode(ea, x, p), HeaderCode(cs, AfterAssign(ea, p)), AfterAssign(ea, p));
    AssignPool(ea, x, cs, p);
    StandsSplit(code, at, f, g);
    s1 := AssignRuns(sem, alu, code, at, ea, x, p, s, w);
    t := HeaderRuns(sem, alu, code, at + |f|, cs, q, s1, w);
    RunsTrans(sem, code, at, s, at + |f|, s1, at + |f| + |g|, t, w);
    KeptNum(q, x, s1, t);
  }

  lemma KeptNum(p: Pool, x: nat, s: M.Store, t: M.Store)
    requires Keeps(p, s, t) && p.Used(x)
    ensures Num(t, x) == Num(s, x)
  {
  }

  /** What the run of the loop itself comes to: it ends in round m, the last one unless the
      body leaves it before. */
  ghost predicate Counted(sem: M.Semantics, code: Code, site: Site, s: M.Store, w: M.World,
                          t: M.Store, v: M.World, m: nat, passes: seq<int>)
    requires StepOf(site.l, s) != 0 && CountOf(site.l, s) >= 0 && (site.l.hasTo || site.l.hasFor)
  {
    var (a, c) := (Num(s, site.l.i), StepOf(site.l, s));
    var rounds := Rounds(site.l, a, LimitOf(site.l, s), c, CountOf(site.l, s));
    && m <= rounds && (m < rounds ==> site.exits) && Recorded(a, c, 0, m, rounds, passes)
    && Goes(sem, code, site.ToMark(), M.At(site.at, s, w),
            M.At(site.at + |Skeleton(site.l, site.body, site.tail)|, t, v), passes)
    && Num(t, site.l.i) == a + m * c
  }

  /** Where the loop of the whole code stands. */
  function SiteOf(at: nat, id: nat, ea: Expr, x: nat, cs: seq<Clause>, p: Pool, body: Code, tail: Code,
                  exits: bool): Site
  {
    Site(LoopOf(id, x, cs, AfterAssign(ea, p)), body, tail,
         at + |FirstCode(ea, x, p)| + |HeaderCode(cs, AfterAssign(ea, p))|, exits)
  }

  /** do i = a to b by c for n, with any body that leaves the loop's registers alone: when
      the start label is reached the control variable and the clauses have their values,
      and from there the body runs exactly for a, a + c, a + 2c, ... while limit and count
      last and it does not leave, and the control variable ends at the next value. */
  lemma WholeLoop(sem: M.Semantics, alu: Alu, code: Code, at: nat, id: nat, ea: Expr, x: nat, cs: seq<Clause>,
                  p: Pool, body: Code, tail: Code, exits: bool, s: M.Store, w: M.World)
      returns (s1: M.Store, t1: M.Store, t: M.Store, v: M.World, m: nat, passes: seq<int>)
    requires Around(sem, alu, code) && Arithmetic(alu)
    requires InUse(ea, x, cs, p) && x != 0 && NotControl(cs, x) && (Has(cs, To) || Has(cs, For))
    requires Stands(code, at, LoopCode(id, ea, x, cs, p, body, tail))
    requires var site := SiteOf(at, id, ea, x, cs, p, body, tail, exits);
      LoopOps(sem) && BodyRuns(sem, code, site, M.At(at, s, w))
    ensures var (site, q) := (SiteOf(at, id, ea, x, cs, p, body, tail, exits), AfterAssign(ea, p));
      && site.at + |Skeleton(site.l, body, tail)| == at + |LoopCode(id, ea, x, cs, p, body, tail)|
      && Runs(sem, code, at, s, site.at, t1, w) && KeepsBut(p, x, s, s1) && Keeps(q, s1, t1)
      && Denotes(alu, ea, s, Num(t1, x))
      && (forall kind :: Has(cs, kind) ==> Denotes(alu, ExprOf(cs, kind), s1, Num(t1, RegOf(cs, kind, q))))
      && (StepOf(site.l, t1) != 0 && CountOf(site.l, t1) >= 0 ==> Counted(sem, code, site, t1, w, t, v, m, passes))
  {
    hide *;
    var (site, q) := (SiteOf(at, id, ea, x, cs, p, body, tail, exits), AfterAssign(ea, p));
    var f, g := FirstCode(ea, x, p), HeaderCode(cs, q);
    LoopCodeIs(at, id, ea, x, cs, p, body, tail, exits);
    LoopKinds(id, x, cs, q);
    t, v, m, passes := s, w, 0, [];
    StandsSplit(code, at, f + g, Skeleton(site.l, body, tail));
    s1, t1 := Prepared(sem, alu, code, at, ea, x, cs, p, s, w);
    if StepOf(site.l, t1) != 0 && CountOf(site.l, t1) >= 0 {
      AssignPool(ea, x, cs, p);
      UseParts(ea, x, cs, p);
      AroundParts(sem, alu, code);
      if Has(cs, By) { StepKept(alu, cs, q, s1, t1); }
      RunsLater(sem, code, site, at, s, t1, w);
      t, v, m, passes := StartedLoop(sem, alu, code, site, id, x, cs, q, t1, w);
    }
  }

  /** The loop has been reached: what is asked of the body is asked from there on. */
  lemma RunsLater(sem: M.Semantics, code: Code, site: Site, at: nat, s: M.Store, t: M.Store, w: M.World)
    requires Runs(sem, code, at, s, site.at, t, w) && BodyRuns(sem, code, site, M.At(at, s, w))
    ensures BodyRuns(sem, code, site, M.At(site.at, t, w))
  {
    hide BodyRuns;
    var n: nat :| M.Steps(sem, code, n, M.At(at, s, w)) == M.At(site.at, t, w);
    StepsLater(sem, code, site, M.At(at, s, w), n);
  }

  lemma LoopCodeIs(at: nat, id: nat, ea: Expr, x: nat, cs: seq<Clause>, p: Pool, body: Code, tail: Code, exits: bool)
    ensures var (site, q) := (SiteOf(at, id, ea, x, cs, p, body, tail, exits), AfterAssign(ea, p));
      && site == Site(LoopOf(id, x, cs, q), body, tail, at + |FirstCode(ea, x, p)| + |HeaderCode(cs, q)|, exits)
      && LoopCode(id, ea, x, cs, p, body, tail)
           == FirstCode(ea, x, p) + HeaderCode(cs, q) + Skeleton(site.l, body, tail)
  {
  }

  lemma UseParts(ea: Expr, x: nat, cs: seq<Clause>, p: Pool)
    requires InUse(ea, x, cs, p)
    ensures p.Valid() && VarsUsed(ea, p) && AllUsed(cs, p) && p.Used(0) && p.Used(x)
  {
  }

  lemma AroundParts(sem: M.Semantics, alu: Alu, code: Code)
    requires Around(sem, alu, code)
    ensures Computes(sem, alu) && OrderFree(alu) && UniqueLabels(code)
  {
  }

  lemma StepKept(alu: Alu, cs: seq<Clause>, q: Pool, s: M.Store, t: M.Store)
    requires AllUsed(cs, q) && Keeps(q, s, t) && Denotes(alu, ExprOf(cs, By), s, Num(t, RegOf(cs, By, q)))
    ensures Denotes(alu, ExprOf(cs, By), t, Num(t, RegOf(cs, By, q)))
  {
    ExprUsed(cs, By, q);
    DenotesSame(alu, ExprOf(cs, By), q, t, s, Num(t, RegOf(cs, By, q)));
  }

  lemma LoopKinds(id: nat, x: nat, cs: seq<Clause>, p: Pool)
    ensures var l := LoopOf(id, x, cs, p); (l.hasTo <==> Has(cs, To)) && (l.hasFor <==> Has(cs, For)) && l.i == x
  {
  }
}
