/** Label addresses after code generation: threading labels over unconditional
    branches, and writing the addresses into the code. */
module LabelThreading {
  /** One cell of the binary. `Ref` is the operand cell of a label operand. */
  datatype Cell = Op(isBr: bool, operands: nat) | Ref(index: nat) | Data(value: int)

  /** What is known of one label: where it is, and the operand cells that use it. */
  datatype Patch = Patch(defined: bool, index: nat, refs: seq<nat>)

  type Table = seq<Patch>

  datatype Option<T> = Absent | Present(value: T)

  /** The label whose reference list holds the cell: the first one, by number. */
  function Owner(table: Table, cell: nat): (r: Option<nat>)
    ensures r.Present? ==> r.value < |table| && cell in table[r.value].refs
    ensures r.Absent? ==> forall a :: 0 <= a < |table| ==> cell !in table[a].refs
  {
    OwnerFrom(table, cell, 0)
  }

  function OwnerFrom(table: Table, cell: nat, a: nat): (r: Option<nat>)
    requires a <= |table|
    ensures r.Present? ==> a <= r.value < |table| && cell in table[r.value].refs
    ensures r.Absent? ==> forall b :: a <= b < |table| ==> cell !in table[b].refs
    decreases |table| - a
  {
    if a == |table| then Absent
    else if cell in table[a].refs then Present(a)
    else OwnerFrom(table, cell, a + 1)
  }

  /** Every operand cell belongs to one label at most, and is a `Ref` of the code. */
  ghost predicate WellLinked(code: seq<Cell>, table: Table) {
    && (forall a, k :: 0 <= a < |table| && 0 <= k < |table[a].refs| ==>
          table[a].refs[k] < |code| && code[table[a].refs[k]].Ref?)
    && (forall a, b, cell :: 0 <= a < b < |table| && cell in table[a].refs ==> cell !in table[b].refs)
  }

  predicate IsBr(code: seq<Cell>, at: nat) {
    at < |code| && code[at].Op? && code[at].isBr
  }

  /** Where the unconditional branch at `at` goes; Absent if there is none there or
      its label is not defined. */
  function Hop(code: seq<Cell>, table: Table, at: nat): Option<nat> {
    if !IsBr(code, at) then Absent
    else
      var p := Owner(table, at + 1);
      if p.Absent? || !table[p.value].defined then Absent else Present(table[p.value].index)
  }

  /** The position after n hops, or the end of the chain if it is shorter. */
  function Follow(code: seq<Cell>, table: Table, at: nat, n: nat): nat
    decreases n
  {
    if n == 0 || Hop(code, table, at).Absent? then at
    else Follow(code, table, Hop(code, table, at).value, n - 1)
  }

  ghost predicate Ends(code: seq<Cell>, table: Table, at: nat) {
    exists n: nat :: Hop(code, table, Follow(code, table, at, n)).Absent?
  }

  ghost predicate Leads(code: seq<Cell>, table: Table, from: nat, to: nat) {
    exists n: nat :: Follow(code, table, from, n) == to
  }

  /** The first position of the chain that is no branch to a defined label. */
  ghost predicate EndOf(code: seq<Cell>, table: Table, from: nat, to: nat) {
    Leads(code, table, from, to) && Hop(code, table, to).Absent?
  }

  lemma {:induction false} FollowAdd(code: seq<Cell>, table: Table, at: nat, m: nat, n: nat)
    ensures Follow(code, table, at, m + n) == Follow(code, table, Follow(code, table, at, m), n)
    decreases m
  {
    if m > 0 && Hop(code, table, at).Present? {
      FollowAdd(code, table, Hop(code, table, at).value, m - 1, n);
    } else if m > 0 {
      assert Follow(code, table, at, n) == at;
    }
  }

  lemma LeadsTrans(code: seq<Cell>, table: Table, x: nat, y: nat, z: nat)
    requires Leads(code, table, x, y) && Leads(code, table, y, z)
    ensures Leads(code, table, x, z)
  {
    var m: nat :| Follow(code, table, x, m) == y;
    var n: nat :| Follow(code, table, y, n) == z;
    FollowAdd(code, table, x, m, n);
  }

  lemma LeadsNext(code: seq<Cell>, table: Table, x: nat)
    ensures Leads(code, table, x, x)
    ensures Hop(code, table, x).Present? ==> Leads(code, table, x, Hop(code, table, x).value)
  {
    assert Follow(code, table, x, 0) == x;
    if Hop(code, table, x).Present? {
      assert Follow(code, table, x, 1) == Follow(code, table, Hop(code, table, x).value, 0);
    }
  }

  /** A chain has one end. */
  lemma EndUnique(code: seq<Cell>, table: Table, from: nat, x: nat, y: nat)
    requires EndOf(code, table, from, x) && EndOf(code, table, from, y)
    ensures x == y
  {
    var m: nat :| Follow(code, table, from, m) == x;
    var n: nat :| Follow(code, table, from, n) == y;
    if m <= n { FollowAdd(code, table, from, m, n - m); }
    else { FollowAdd(code, table, from, n, m - n); }
  }

  /* ---- Chain length ---- */

  ghost function Length(code: seq<Cell>, table: Table, at: nat, n: nat): nat
    requires Hop(code, table, Follow(code, table, at, n)).Absent?
    decreases n
  {
    if Hop(code, table, at).Absent? then 0
    else 1 + Length(code, table, Hop(code, table, at).value, n - 1)
  }

  lemma {:induction false} LengthUnique(code: seq<Cell>, table: Table, at: nat, m: nat, n: nat)
    requires Hop(code, table, Follow(code, table, at, m)).Absent?
    requires Hop(code, table, Follow(code, table, at, n)).Absent?
    ensures Length(code, table, at, m) == Length(code, table, at, n)
    decreases m
  {
    if Hop(code, table, at).Present? {
      LengthUnique(code, table, Hop(code, table, at).value, m - 1, n - 1);
    }
  }

  ghost function Rank(code: seq<Cell>, table: Table, at: nat): nat {
    if Ends(code, table, at) then
      var n: nat :| Hop(code, table, Follow(code, table, at, n)).Absent?;
      Length(code, table, at, n)
    else 0
  }

  lemma RankIs(code: seq<Cell>, table: Table, at: nat, n: nat)
    requires Hop(code, table, Follow(code, table, at, n)).Absent?
    ensures Ends(code, table, at) && Rank(code, table, at) == Length(code, table, at, n)
  {
    var m: nat :| Hop(code, table, Follow(code, table, at, m)).Absent?
      && Rank(code, table, at) == Length(code, table, at, m);
    LengthUnique(code, table, at, m, n);
  }

  lemma EndsHere(code: seq<Cell>, table: Table, at: nat)
    ensures Hop(code, table, at).Absent? ==> Ends(code, table, at)
  {
    assert Follow(code, table, at, 0) == at;
  }

  lemma RankHop(code: seq<Cell>, table: Table, at: nat)
    requires Hop(code, table, at).Present?
    ensures var next := Hop(code, table, at).value;
      && (Ends(code, table, at) <==> Ends(code, table, next))
      && (Ends(code, table, at) ==> Rank(code, table, at) == Rank(code, table, next) + 1)
  {
    var next := Hop(code, table, at).value;
    if Ends(code, table, at) {
      var n: nat :| Hop(code, table, Follow(code, table, at, n)).Absent?;
      assert Follow(code, table, at, n) == Follow(code, table, next, n - 1);
      RankIs(code, table, at, n);
      RankIs(code, table, next, n - 1);
    }
    if Ends(code, table, next) {
      var n: nat :| Hop(code, table, Follow(code, table, next, n)).Absent?;
      assert Follow(code, table, at, n + 1) == Follow(code, table, next, n);
    }
  }

  /** The same along any number of hops. */
  lemma RankAlong(code: seq<Cell>, table: Table, from: nat, to: nat)
    requires Leads(code, table, from, to)
    ensures Ends(code, table, from) <==> Ends(code, table, to)
    ensures Rank(code, table, to) <= Rank(code, table, from)
  {
    var n: nat :| Follow(code, table, from, n) == to;
    RankLeads(code, table, from, n);
  }

  lemma {:induction false} RankLeads(code: seq<Cell>, table: Table, from: nat, n: nat)
    ensures var to := Follow(code, table, from, n);
      && (Ends(code, table, from) <==> Ends(code, table, to))
      && Rank(code, table, to) <= Rank(code, table, from)
    decreases n
  {
    if n > 0 && Hop(code, table, from).Present? {
      RankHop(code, table, from);
      RankLeads(code, table, Hop(code, table, from).value, n - 1);
    }
  }

  /* ---- One visit, one pass ---- */

  /** Only addresses change: the same labels, definitions and references. */
  predicate SameLinks(now: Table, table: Table) {
    |now| == |table|
    && forall a :: 0 <= a < |table| ==> now[a] == table[a].(index := now[a].index)
  }

  lemma OwnerSame(now: Table, table: Table, cell: nat, a: nat)
    requires SameLinks(now, table) && a <= |table|
    ensures OwnerFrom(now, cell, a) == OwnerFrom(table, cell, a)
    decreases |table| - a
  {
    if a < |table| { OwnerSame(now, table, cell, a + 1); }
  }

  /** Whether visiting label a retargets it, and to which label's address. */
  function Passes(code: seq<Cell>, now: Table, a: nat): (r: Option<nat>)
    requires a < |now|
    ensures r.Present? ==> r.value < |now| && r.value != a && now[r.value].defined && now[a].defined
  {
    if !now[a].defined || !IsBr(code, now[a].index) then Absent
    else
      var p := Owner(now, now[a].index + 1);
      if p.Present? && p.value != a && now[p.value].defined then p else Absent
  }

  function Visit(code: seq<Cell>, now: Table, a: nat): Table
    requires a < |now|
  {
    var p := Passes(code, now, a);
    if p.Absent? then now else now[a := now[a].(index := now[p.value].index)]
  }

  datatype Progress = Progress(table: Table, changed: bool)

  predicate IsOrder(order: seq<nat>, n: nat) {
    && (forall k :: 0 <= k < |order| ==> order[k] < n)
    && (forall a: nat :: a < n ==> a in order)
  }

  /** The state after visiting the first k labels of the walk. */
  function Sweep(code: seq<Cell>, table: Table, order: seq<nat>, k: nat): (r: Progress)
    requires k <= |order| && IsOrder(order, |table|)
    ensures |r.table| == |table|
  {
    if k == 0 then Progress(table, false)
    else
      var before := Sweep(code, table, order, k - 1);
      Progress(Visit(code, before.table, order[k - 1]),
               before.changed || Passes(code, before.table, order[k - 1]).Present?)
  }

  /* ---- What every visit keeps ---- */

  /** Each label's address lies on the chain it started from. */
  ghost predicate OnChain(code: seq<Cell>, table: Table, now: Table) {
    SameLinks(now, table)
    && forall a :: 0 <= a < |table| ==> Leads(code, table, table[a].index, now[a].index)
  }

  /** A retargeted label's old address is one or more hops before its new one. */
  lemma PassForward(code: seq<Cell>, table: Table, now: Table, a: nat)
    requires OnChain(code, table, now) && a < |now| && Passes(code, now, a).Present?
    ensures var p := Passes(code, now, a).value;
      && Hop(code, table, now[a].index) == Present(table[p].index)
      && Leads(code, table, table[p].index, now[p].index)
  {
    OwnerSame(now, table, now[a].index + 1, 0);
  }

  lemma VisitOnChain(code: seq<Cell>, table: Table, now: Table, a: nat)
    requires OnChain(code, table, now) && a < |now|
    ensures OnChain(code, table, Visit(code, now, a))
  {
    if Passes(code, now, a).Present? {
      PassForward(code, table, now, a);
      var p := Passes(code, now, a).value;
      LeadsNext(code, table, now[a].index);
      LeadsTrans(code, table, now[a].index, table[p].index, now[p].index);
      LeadsTrans(code, table, table[a].index, now[a].index, now[p].index);
    }
  }

  /* ---- Termination ---- */

  /** A label that stands at a branch to itself; it is never retargeted. */
  predicate AtItself(code: seq<Cell>, table: Table, a: nat)
    requires a < |table|
  {
    IsBr(code, table[a].index) && Owner(table, table[a].index + 1) == Present(a)
  }

  /** Every chain of branches ends, but for labels at a branch to themselves. */
  ghost predicate NoCycle(code: seq<Cell>, table: Table) {
    forall a :: 0 <= a < |table| && table[a].defined ==>
      Ends(code, table, table[a].index) || AtItself(code, table, a)
  }

  ghost function TotalRank(code: seq<Cell>, table: Table, now: Table, k: nat): nat
    requires k <= |now|
  {
    if k == 0 then 0 else TotalRank(code, table, now, k - 1) + Rank(code, table, now[k - 1].index)
  }

  lemma {:induction false} TotalRankUpdate(code: seq<Cell>, table: Table, now: Table, k: nat, a: nat, p: Patch)
    requires a < |now| && k <= |now|
    ensures TotalRank(code, table, now[a := p], k)
      == TotalRank(code, table, now, k)
         + (if a < k then Rank(code, table, p.index) - Rank(code, table, now[a].index) else 0)
  {
    if k > 0 { TotalRankUpdate(code, table, now, k - 1, a, p); }
  }

  /** While no cycle is in reach, a label that is retargeted has an ending chain. */
  ghost predicate Calm(code: seq<Cell>, table: Table, now: Table) {
    && OnChain(code, table, now)
    && forall a :: 0 <= a < |table| && table[a].defined && !Ends(code, table, table[a].index) ==>
         now[a] == table[a] && AtItself(code, table, a)
  }

  /** The new address has a shorter way to the end. */
  lemma PassNearer(code: seq<Cell>, table: Table, now: Table, a: nat)
    requires OnChain(code, table, now) && a < |now| && Passes(code, now, a).Present?
    ensures var p := Passes(code, now, a).value;
      && (Ends(code, table, table[a].index) <==> Ends(code, table, table[p].index))
      && (Ends(code, table, table[a].index) ==>
            Rank(code, table, now[p].index) < Rank(code, table, now[a].index))
  {
    PassForward(code, table, now, a);
    var p := Passes(code, now, a).value;
    hide Leads, Ends, Rank, Passes, Hop;
    RankAlong(code, table, table[a].index, now[a].index);
    RankHop(code, table, now[a].index);
    RankAlong(code, table, table[p].index, now[p].index);
  }

  lemma CalmPasses(code: seq<Cell>, table: Table, now: Table, a: nat)
    requires Calm(code, table, now) && a < |now| && Passes(code, now, a).Present?
    ensures Ends(code, table, table[a].index)
  {
    hide Leads, Ends;
    OwnerSame(now, table, now[a].index + 1, 0);
  }

  lemma VisitCalm(code: seq<Cell>, table: Table, now: Table, a: nat)
    requires Calm(code, table, now) && a < |now|
    ensures Calm(code, table, Visit(code, now, a))
    ensures Passes(code, now, a).Present? ==>
      TotalRank(code, table, Visit(code, now, a), |now|) < TotalRank(code, table, now, |now|)
    ensures Passes(code, now, a).Absent? ==> Visit(code, now, a) == now
  {
    hide Leads, Ends, Rank, Passes;
    VisitOnChain(code, table, now, a);
    if Passes(code, now, a).Present? {
      var p := Passes(code, now, a).value;
      CalmPasses(code, table, now, a);
      PassNearer(code, table, now, a);
      TotalRankUpdate(code, table, now, |now|, a, now[a].(index := now[p].index));
    }
  }

  /** A label whose chain never ends and that does not stand at itself. */
  ghost predicate Restless(code: seq<Cell>, table: Table, now: Table, a: nat)
    requires SameLinks(now, table)
  {
    a < |table| && table[a].defined && !Ends(code, table, table[a].index) && !AtItself(code, now, a)
  }

  ghost predicate SomeRestless(code: seq<Cell>, table: Table, now: Table)
    requires SameLinks(now, table)
  {
    exists a: nat :: Restless(code, table, now, a)
  }

  /** A restless label is retargeted when it is visited. */
  lemma RestlessPasses(code: seq<Cell>, table: Table, now: Table, a: nat)
    requires OnChain(code, table, now) && Restless(code, table, now, a)
    ensures Passes(code, now, a).Present?
  {
    OwnerSame(now, table, now[a].index + 1, 0);
    RankAlong(code, table, table[a].index, now[a].index);
    EndsHere(code, table, now[a].index);
    hide Ends, Leads;
  }

  /** Two labels at one address cannot both stand at themselves. */
  lemma NotBothAtThemselves(code: seq<Cell>, table: Table, a: nat, p: nat)
    requires a < |table| && p < |table| && a != p && table[a].index == table[p].index
    ensures !AtItself(code, table, a) || !AtItself(code, table, p)
  {
  }

  /** So the retargeted label or the one it was retargeted to is restless. */
  lemma PassRestless(code: seq<Cell>, table: Table, now: Table, a: nat)
    requires OnChain(code, table, now) && a < |now| && Passes(code, now, a).Present?
    requires !Ends(code, table, table[a].index)
    ensures OnChain(code, table, Visit(code, now, a)) && SomeRestless(code, table, Visit(code, now, a))
  {
    hide Ends, Leads, Rank, Passes, AtItself;
    var after := Visit(code, now, a);
    VisitOnChain(code, table, now, a);
    var p := Passes(code, now, a).value;
    PassNearer(code, table, now, a);
    NotBothAtThemselves(code, after, a, p);
    assert table[a].defined && table[p].defined;
    assert Restless(code, table, after, a) || Restless(code, table, after, p);
  }

  /** Retargeting another label leaves a restless one as it was. */
  lemma OtherRestless(code: seq<Cell>, table: Table, now: Table, a: nat, w: nat)
    requires OnChain(code, table, now) && a < |now| && w != a && Restless(code, table, now, w)
    ensures OnChain(code, table, Visit(code, now, a)) && Restless(code, table, Visit(code, now, a), w)
  {
    VisitOnChain(code, table, now, a);
    hide Ends, Leads;
    OwnerSame(now, table, now[w].index + 1, 0);
    OwnerSame(Visit(code, now, a), table, now[w].index + 1, 0);
  }

  lemma StaysRestless(code: seq<Cell>, table: Table, now: Table, a: nat)
    requires OnChain(code, table, now) && a < |now| && SomeRestless(code, table, now)
    ensures OnChain(code, table, Visit(code, now, a)) && SomeRestless(code, table, Visit(code, now, a))
  {
    hide Leads, Ends, Passes;
    if Passes(code, now, a).Absent? {
    } else if Ends(code, table, table[a].index) {
      var w: nat :| Restless(code, table, now, w);
      OtherRestless(code, table, now, a, w);
    } else {
      PassRestless(code, table, now, a);
    }
  }

  lemma {:induction false} SweepRestless(code: seq<Cell>, table: Table, now: Table, order: seq<nat>, k: nat)
    requires OnChain(code, table, now) && IsOrder(order, |now|) && k <= |order|
    requires SomeRestless(code, table, now)
    ensures var r := Sweep(code, now, order, k);
      && OnChain(code, table, r.table) && SomeRestless(code, table, r.table)
      && (!r.changed ==>
            r.table == now && forall j :: 0 <= j < k ==> Passes(code, now, order[j]).Absent?)
  {
    hide OnChain, SomeRestless, Passes;
    if k > 0 {
      SweepRestless(code, table, now, order, k - 1);
      var before := Sweep(code, now, order, k - 1);
      StaysRestless(code, table, before.table, order[k - 1]);
    }
  }

  /** The table after n whole passes over the labels. */
  ghost function AfterPasses(code: seq<Cell>, table: Table, order: seq<nat>, n: nat): (r: Progress)
    requires IsOrder(order, |table|)
    ensures |r.table| == |table|
  {
    if n == 0 then Progress(table, true)
    else Sweep(code, AfterPasses(code, table, order, n - 1).table, order, |order|)
  }

  /** If some chain runs into a cycle and its label does not stand at itself, every
      pass changes something and the loop never ends. */
  lemma {:induction false} CycleNeverEnds(code: seq<Cell>, table: Table, order: seq<nat>, n: nat)
    requires IsOrder(order, |table|) && !NoCycle(code, table)
    ensures AfterPasses(code, table, order, n).changed
    ensures OnChain(code, table, AfterPasses(code, table, order, n).table)
    ensures SomeRestless(code, table, AfterPasses(code, table, order, n).table)
  {
    hide Ends, Leads, OnChain, Passes, NoCycle, Sweep, SameLinks;
    if n == 0 {
      StartRestless(code, table);
    } else {
      CycleNeverEnds(code, table, order, n - 1);
      var now := AfterPasses(code, table, order, n - 1).table;
      SweepRestless(code, table, now, order, |order|);
      SomePasses(code, table, now, order);
    }
  }

  lemma StartRestless(code: seq<Cell>, table: Table)
    requires !NoCycle(code, table)
    ensures OnChain(code, table, table) && SomeRestless(code, table, table)
  {
    var a :| 0 <= a < |table| && table[a].defined
      && !(Ends(code, table, table[a].index) || AtItself(code, table, a));
    hide Ends, AtItself, Leads;
    forall b | 0 <= b < |table| ensures Leads(code, table, table[b].index, table[b].index) {
      LeadsNext(code, table, table[b].index);
    }
    assert Restless(code, table, table, a);
  }

  /** While a label is restless, a pass retargets some label. */
  lemma SomePasses(code: seq<Cell>, table: Table, now: Table, order: seq<nat>)
    requires OnChain(code, table, now) && IsOrder(order, |now|) && SomeRestless(code, table, now)
    ensures exists j :: 0 <= j < |order| && Passes(code, now, order[j]).Present?
  {
    hide Ends, Leads, Passes;
    var w: nat :| Restless(code, table, now, w);
    RestlessPasses(code, table, now, w);
    assert w in order;
  }

  /* ---- The loops ---- */

  /** The label an operand cell belongs to, by a walk over all reference lists. */
  method FindPatchIndex(code: seq<Cell>, table: Table, order: seq<nat>, source: nat)
      returns (found: Option<nat>)
    requires IsOrder(order, |table|) && WellLinked(code, table)
    ensures found == Owner(table, source)
  {
    var k := 0;
    while k < |order|
      invariant k <= |order|
      invariant forall j :: 0 <= j < k ==> source !in table[order[j]].refs
    {
      var refs := table[order[k]].refs;
      var r := 0;
      while r < |refs|
        invariant r <= |refs| && source !in refs[..r]
      {
        if refs[r] == source {
          assert source in table[order[k]].refs;
          return Present(order[k]);
        }
        r := r + 1;
      }
      assert refs[..r] == refs;
      k := k + 1;
    }
    found := Absent;
    assert forall a: nat :: a < |table| && a in order ==> source !in table[a].refs;
  }

  lemma SweepCalm(code: seq<Cell>, table: Table, now: Table, order: seq<nat>, k: nat)
    requires Calm(code, table, now) && IsOrder(order, |now|) && k <= |order|
    ensures var r := Sweep(code, now, order, k);
      && Calm(code, table, r.table)
      && (if r.changed
          then TotalRank(code, table, r.table, |now|) < TotalRank(code, table, now, |now|)
          else r.table == now && forall j :: 0 <= j < k ==> Passes(code, now, order[j]).Absent?)
  {
    hide Calm, TotalRank, Passes;
    if k > 0 {
      SweepCalm(code, table, now, order, k - 1);
      VisitCalm(code, table, Sweep(code, now, order, k - 1).table, order[k - 1]);
    }
  }

  /** Where every label ends: at the first instruction of its chain that is no branch
      to a defined label, or where it stood if that is a branch to itself. */
  ghost predicate Threaded(code: seq<Cell>, table: Table, now: Table) {
    && OnChain(code, table, now)
    && forall a :: 0 <= a < |table| && table[a].defined ==>
         if Ends(code, table, table[a].index) then EndOf(code, table, table[a].index, now[a].index)
         else now[a] == table[a]
  }

  lemma QuietIsThreaded(code: seq<Cell>, table: Table, now: Table, order: seq<nat>)
    requires Calm(code, table, now) && IsOrder(order, |now|)
    requires forall j :: 0 <= j < |order| ==> Passes(code, now, order[j]).Absent?
    ensures Threaded(code, table, now)
  {
    forall a | 0 <= a < |table| && table[a].defined && Ends(code, table, table[a].index)
      ensures Hop(code, table, now[a].index).Absent?
    {
      assert a in order;
      QuietAtEnd(code, table, now, a);
    }
  }

  /** Only a branch to the label itself is passed over, and that is a cycle. */
  lemma QuietAtEnd(code: seq<Cell>, table: Table, now: Table, a: nat)
    requires OnChain(code, table, now) && a < |now| && Passes(code, now, a).Absent?
    requires table[a].defined && Ends(code, table, table[a].index)
    ensures Hop(code, table, now[a].index).Absent?
  {
    OwnerSame(now, table, now[a].index + 1, 0);
    RankAlong(code, table, table[a].index, now[a].index);
    hide Ends, Leads, Rank;
    if Hop(code, table, now[a].index).Present? {
      RankHop(code, table, now[a].index);
      assert false;
    }
  }

  /** Retargets one label, if it stands at a branch to another defined one. */
  method VisitLabel(code: seq<Cell>, now: Table, order: seq<nat>, a: nat)
      returns (after: Table, changed: bool)
    requires a < |now| && IsOrder(order, |now|) && WellLinked(code, now)
    ensures after == Visit(code, now, a) && changed == Passes(code, now, a).Present?
  {
    after, changed := now, false;
    if now[a].defined && IsBr(code, now[a].index) {
      var p := FindPatchIndex(code, now, order, now[a].index + 1);
      if p.Present? && p.value != a && now[p.value].defined {
        after := now[a := now[a].(index := now[p.value].index)];
        changed := true;
      }
    }
  }

  lemma LinksKept(code: seq<Cell>, table: Table, now: Table)
    requires WellLinked(code, table) && SameLinks(now, table)
    ensures WellLinked(code, now)
  {
  }

  /** One pass over all labels. */
  method SweepLabels(code: seq<Cell>, table: Table, order: seq<nat>) returns (now: Table, changed: bool)
    requires IsOrder(order, |table|) && WellLinked(code, table)
    ensures Progress(now, changed) == Sweep(code, table, order, |order|)
  {
    now, changed := table, false;
    hide Visit, Passes, WellLinked;
    var k := 0;
    while k < |order|
      invariant k <= |order| && Progress(now, changed) == Sweep(code, table, order, k)
      invariant WellLinked(code, now)
    {
      var visited;
      ghost var before := now;
      now, visited := VisitLabel(code, now, order, order[k]);
      VisitLinks(code, before, order[k]);
      changed := changed || visited;
      k := k + 1;
    }
  }

  lemma VisitLinks(code: seq<Cell>, now: Table, a: nat)
    requires WellLinked(code, now) && a < |now|
    ensures WellLinked(code, Visit(code, now, a))
  {
    LinksKept(code, now, Visit(code, now, a));
  }

  method OptimiseLabels(code: seq<Cell>, table: Table, order: seq<nat>) returns (now: Table)
    requires IsOrder(order, |table|) && WellLinked(code, table)
    requires NoCycle(code, table)
    ensures Threaded(code, table, now)
  {
    hide Calm, Threaded, TotalRank, NoCycle, WellLinked, Sweep, SameLinks;
    now := table;
    StartCalm(code, table);
    var changed := true;
    while changed
      invariant Calm(code, table, now) && |now| == |table| && WellLinked(code, now)
      invariant !changed ==> Threaded(code, table, now)
      decreases TotalRank(code, table, now, |table|), changed
    {
      ghost var before := now;
      now, changed := SweepLabels(code, now, order);
      SweepCalm(code, table, before, order, |order|);
      CalmLinks(code, table, now);
      if !changed { QuietIsThreaded(code, table, now, order); }
    }
  }

  lemma CalmLinks(code: seq<Cell>, table: Table, now: Table)
    requires WellLinked(code, table) && Calm(code, table, now)
    ensures WellLinked(code, now)
  {
    LinksKept(code, table, now);
  }

  lemma StartCalm(code: seq<Cell>, table: Table)
    requires NoCycle(code, table)
    ensures Calm(code, table, table)
  {
    forall b | 0 <= b < |table| ensures Leads(code, table, table[b].index, table[b].index) {
      LeadsNext(code, table, table[b].index);
    }
  }
}
