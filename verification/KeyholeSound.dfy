/** A rule application inside a window keeps the meaning of the whole program when its
    own match is right; nothing is asked of any other instruction. */
module KeyholeSound {
  import opened Assembly
  import M = Machine
  import Sim = Simulation
  import R = KeyholeRules
  import E = KeyholeEffect

  /** The program around the window, and the window. */
  function Whole(pre: Code, q: Code, post: Code): Code { pre + q + post }

  /** Labels are unique, and no generated name is still to come. */
  ghost predicate Tidy(code: Code, counter: nat) {
    UniqueLabels(code) && Below(code, counter)
  }

  /** What a match has to be like, beyond what the matcher looks at: merged branches test
      one register, not two of one number; a shortened concatenation is onto its first
      operand and adds another register; removed swaps fit together as PairFits says. */
  predicate Right(q: Code, k: nat, i: nat)
    requires k < R.SetCount && i < |q|
  {
    var j := E.LastHit(q, k, i);
    if k < 2 then i < j < |q| && Sim.PairFits(Sim.Pair(i, j), q)
    else if k < 4 then q[i].Instr? && q[i].a == q[i].b && q[i].a != q[i].c
    else if k < 7 then true
    else j < |q| && q[i].Instr? && q[j].Instr? && q[i].b == q[j].b
  }

  /* ---- Each application is a rewrite ---- */

  function Shortened(item: Item, op: Op): Item
    requires item.Instr?
  {
    Instr(op, item.a, item.c, None)
  }

  /** The rewrite of the window that an application of rule set k at i amounts to. */
  ghost predicate Edits(q: Code, counter: nat, k: nat, i: nat, rw: Sim.Rewrite)
    requires k < R.SetCount && i < |q|
  {
    && Sim.Shape(rw, q)
    && match rw
       case Pair(i', j) => (
         && k < 2 && i' == i && j == E.LastHit(q, k, i) && E.PairAt(q, i, j, k == 1)
         && R.Apply(q, counter, k, i) == R.Present(R.Rewritten(Sim.After(rw, q), counter)))
       case Replace(i', item) => (
         && 2 <= k < 4 && i' == i && E.SelfConcat(q[i], if k == 2 then Sconcat else Concat)
         && item == Shortened(q[i], if k == 2 then Sappend else Append)
         && R.Apply(q, counter, k, i) == R.Present(R.Rewritten(Sim.After(rw, q), counter)))
       case Thread(i', j, s, t, added) => (
         && k >= 4 && i' == i && j + 1 == E.LastHit(q, k, i) && E.ThreadAt(q, counter, k, i, j, s, t, added)
         && R.Apply(q, counter, k, i) == R.Present(R.Rewritten(Sim.After(rw, q), counter + |added|)))
  }

  lemma Unmentioned(p: Code, counter: nat)
    requires Below(p, counter)
    ensures Sim.NotMentioned(p, Gen(counter))
  {
    forall k | 0 <= k < |p| ensures !Mentions(p[k], Gen(counter)) {
      assert p[k] in p;
    }
  }

  lemma BranchShape(k: nat, first: Item, x: Name, second: Item, s: Item, t: Item, added: Code, new': Name)
    requires E.BranchRule(k, first, x, second, s, t, new', added)
    ensures first.Instr? && second.Instr? && s.Instr? && t.Instr?
    ensures forall n :: Mentions(s, n) || Mentions(t, n) ==> Mentions(second, n) || n == new'
    ensures added == [] || added == [Label(new')]
    ensures added == [] ==> forall n :: Mentions(s, n) || Mentions(t, n) ==> Mentions(second, n)
  {
  }

  /** Every application is such a rewrite. */
  lemma WindowEdit(q: Code, counter: nat, k: nat, i: nat) returns (rw: Sim.Rewrite)
    requires k < R.SetCount && i < |q| && R.Apply(q, counter, k, i).Present?
    requires Below(q, counter)
    ensures Edits(q, counter, k, i, rw)
  {
    hide Edits, R.Apply, Below;
    if k < 2 {
      rw := SwapEdit(q, counter, k, i);
    } else if k < 4 {
      rw := ShortenEdit(q, counter, k, i);
    } else {
      rw := ThreadEdit(q, counter, k, i);
    }
  }

  lemma SwapEdit(q: Code, counter: nat, k: nat, i: nat) returns (rw: Sim.Rewrite)
    requires k < 2 && i < |q| && R.Apply(q, counter, k, i).Present?
    ensures Edits(q, counter, k, i, rw)
  {
    hide R.Apply, E.LastHit;
    var j := E.SwapEffect(q, counter, k, i);
    rw := Sim.Pair(i, j);
    forall g | i <= g <= j ensures q[g].Instr? {
      assert i < g < j ==> !R.Hazardous(q[g]);
    }
    assert Sim.After(rw, q) == E.WithoutPair(q, i, j);
  }

  lemma ShortenEdit(q: Code, counter: nat, k: nat, i: nat) returns (rw: Sim.Rewrite)
    requires 2 <= k < 4 && i < |q| && R.Apply(q, counter, k, i).Present?
    ensures Edits(q, counter, k, i, rw)
  {
    hide R.Apply;
    E.ShortenEffect(q, counter, k, i);
    rw := Sim.Replace(i, Shortened(q[i], if k == 2 then Sappend else Append));
  }

  lemma ThreadEdit(q: Code, counter: nat, k: nat, i: nat) returns (rw: Sim.Rewrite)
    requires 4 <= k < R.SetCount && i < |q| && R.Apply(q, counter, k, i).Present?
    requires Below(q, counter)
    ensures Edits(q, counter, k, i, rw)
  {
    hide R.Apply, E.LastHit;
    var j, s, t, added := E.ThreadEffect(q, counter, k, i);
    rw := Sim.Thread(i, j, s, t, added);
    BranchShape(k, q[i], q[j].name, q[j + 1], s, t, added, Gen(counter));
    Unmentioned(q, counter);
    hide E.BranchRule;
    assert Sim.After(rw, q) == E.Threaded(q, i, j, s, t, added);
  }

  /* ---- The same rewrite of the whole program ---- */

  function Moved(rw: Sim.Rewrite, n: nat): Sim.Rewrite {
    match rw
    case Thread(i, j, s, t, added) => Sim.Thread(n + i, n + j, s, t, added)
    case Pair(i, j) => Sim.Pair(n + i, n + j)
    case Replace(i, item) => Sim.Replace(n + i, item)
  }

  /** The window's slices inside the whole program. */
  lemma WholeFront(pre: Code, q: Code, post: Code, i: nat)
    requires i <= |q|
    ensures Whole(pre, q, post)[..|pre| + i] == pre + q[..i]
  {
  }

  lemma WholeMiddle(pre: Code, q: Code, post: Code, i: nat, j: nat)
    requires i <= j <= |q|
    ensures Whole(pre, q, post)[|pre| + i..|pre| + j] == q[i..j]
  {
  }

  lemma WholeBack(pre: Code, q: Code, post: Code, j: nat)
    requires j <= |q|
    ensures Whole(pre, q, post)[|pre| + j..] == q[j..] + post
  {
  }

  lemma WholeAt(pre: Code, q: Code, post: Code, k: nat)
    requires k < |q|
    ensures |Whole(pre, q, post)| == |pre| + |q| + |post|
    ensures Whole(pre, q, post)[|pre| + k] == q[k] && q[k] in Whole(pre, q, post)
  {
    assert Whole(pre, q, post)[|pre| + k] == q[k];
  }

  lemma ThreadedWhole(pre: Code, q: Code, post: Code, rw: Sim.Rewrite)
    requires rw.Thread? && Sim.Inside(rw, q)
    ensures Sim.Inside(Moved(rw, |pre|), Whole(pre, q, post))
    ensures Sim.After(Moved(rw, |pre|), Whole(pre, q, post)) == Whole(pre, Sim.After(rw, q), post)
  {
    var (i, j) := (rw.i, rw.j);
    WholeAt(pre, q, post, j + 1);
    WholeFront(pre, q, post, i);
    WholeMiddle(pre, q, post, i + 1, j + 1);
    WholeBack(pre, q, post, j + 2);
    Joined(pre, q[..i], rw.s, q[i + 1..j + 1], rw.t, rw.added, q[j + 2..], post);
  }

  lemma Joined(pre: Code, a: Code, s: Item, m: Code, t: Item, d: Code, b: Code, post: Code)
    ensures (pre + a) + [s] + m + [t] + d + (b + post) == pre + (a + [s] + m + [t] + d + b) + post
  {
    var core := [s] + m + [t] + d;
    Nested(pre + a, s, m, t, d, b + post);
    Nested(a, s, m, t, d, b);
    Outer(pre, a + core + b, post, a, core, b);
  }

  lemma Nested(x: Code, s: Item, m: Code, t: Item, d: Code, y: Code)
    ensures x + [s] + m + [t] + d + y == x + ([s] + m + [t] + d) + y
  {
  }

  /** Moving brackets. */
  lemma Outer(pre: Code, q: Code, post: Code, a: Code, m: Code, b: Code)
    requires q == a + m + b
    ensures (pre + a) + m + (b + post) == pre + q + post
  {
  }

  lemma WholeIs(pre: Code, q: Code, post: Code)
    ensures Whole(pre, q, post) == pre + q + post
  {
  }

  lemma PairWhole(pre: Code, q: Code, post: Code, rw: Sim.Rewrite)
    requires rw.Pair? && Sim.Inside(rw, q)
    ensures Sim.Inside(Moved(rw, |pre|), Whole(pre, q, post))
    ensures Sim.After(Moved(rw, |pre|), Whole(pre, q, post)) == Whole(pre, Sim.After(rw, q), post)
  {
    hide Whole;
    var (i, j) := (rw.i, rw.j);
    WholeAt(pre, q, post, j);
    WholeFront(pre, q, post, i);
    WholeMiddle(pre, q, post, i + 1, j);
    WholeBack(pre, q, post, j + 1);
    WholeIs(pre, Sim.After(rw, q), post);
    Outer(pre, Sim.After(rw, q), post, q[..i], q[i + 1..j], q[j + 1..]);
  }

  lemma WholeAfter(pre: Code, q: Code, post: Code, rw: Sim.Rewrite)
    requires Sim.Inside(rw, q)
    ensures Sim.Inside(Moved(rw, |pre|), Whole(pre, q, post))
    ensures Sim.After(Moved(rw, |pre|), Whole(pre, q, post)) == Whole(pre, Sim.After(rw, q), post)
  {
    if rw.Thread? {
      ThreadedWhole(pre, q, post, rw);
    } else if rw.Pair? {
      PairWhole(pre, q, post, rw);
    }
  }

  lemma WholeShape(pre: Code, q: Code, post: Code, rw: Sim.Rewrite)
    requires Sim.Shape(rw, q)
    requires rw.Thread? ==> Sim.AddsNewLabel(Whole(pre, q, post), rw.added)
    ensures Sim.Shape(Moved(rw, |pre|), Whole(pre, q, post))
  {
    var p := Whole(pre, q, post);
    forall g: nat | g < |q| ensures |pre| + g < |p| && p[|pre| + g] == q[g] {
      WholeAt(pre, q, post, g);
    }
    hide Whole, Sim.AddsNewLabel;
    if rw.Pair? {
      forall g | |pre| + rw.i <= g <= |pre| + rw.j ensures p[g].Instr? {
        assert p[|pre| + (g - |pre|)] == q[g - |pre|];
      }
    }
  }

  /** An application in the window is a rewrite of the whole program. */
  lemma WholeEdit(pre: Code, q: Code, post: Code, counter: nat, k: nat, i: nat) returns (rw: Sim.Rewrite)
    requires k < R.SetCount && i < |q| && R.Apply(q, counter, k, i).Present?
    requires Below(Whole(pre, q, post), counter)
    ensures Edits(q, counter, k, i, rw)
    ensures Sim.Shape(Moved(rw, |pre|), Whole(pre, q, post))
    ensures Sim.After(Moved(rw, |pre|), Whole(pre, q, post))
      == Whole(pre, R.Apply(q, counter, k, i).value.queue, post)
    ensures rw.Thread? ==> NewNames(rw, counter, R.Apply(q, counter, k, i).value.counter)
    ensures R.Apply(q, counter, k, i).value.counter >= counter
  {
    var p := Whole(pre, q, post);
    forall item | item in q ensures item in p {
      var g :| 0 <= g < |q| && q[g] == item;
      WholeAt(pre, q, post, g);
    }
    Unmentioned(p, counter);
    rw := WindowEdit(q, counter, k, i);
    if rw.Thread? {
      hide R.Apply, Sim.After, Whole, Sim.Shape;
      NewNamesHold(q, counter, k, i, rw.j, rw.s, rw.t, rw.added);
      NewLabelFits(rw, counter, R.Apply(q, counter, k, i).value.counter, p);
    }
    hide R.Apply, Sim.After, Whole, Sim.Shape, Sim.AddsNewLabel;
    ShapeInside(rw, q);
    WholeAfter(pre, q, post, rw);
    WholeShape(pre, q, post, rw);
  }

  lemma ShapeInside(rw: Sim.Rewrite, q: Code)
    requires Sim.Shape(rw, q)
    ensures Sim.Inside(rw, q)
  {
  }

  /** The new branches use only names of the old ones and the new label. */
  ghost predicate NewNames(rw: Sim.Rewrite, counter: nat, counter': nat)
    requires rw.Thread?
  {
    && rw.s.Instr? && rw.t.Instr?
    && counter' == counter + |rw.added|
    && (rw.added == [] || rw.added == [Label(Gen(counter))])
    && forall n: nat :: Mentions(rw.s, Gen(n)) || Mentions(rw.t, Gen(n)) ==> n < counter'
  }

  lemma NewLabelFits(rw: Sim.Rewrite, counter: nat, counter': nat, p: Code)
    requires rw.Thread? && NewNames(rw, counter, counter') && Sim.NotMentioned(p, Gen(counter))
    ensures Sim.AddsNewLabel(p, rw.added)
  {
  }

  lemma NewNamesHold(q: Code, counter: nat, k: nat, i: nat, j: nat, s: Item, t: Item, added: Code)
    requires E.ThreadAt(q, counter, k, i, j, s, t, added) && Below(q, counter)
    ensures NewNames(Sim.Thread(i, j, s, t, added), counter, counter + |added|)
  {
    assert q[i] in q && q[j + 1] in q;
    BranchShape(k, q[i], q[j].name, q[j + 1], s, t, added, Gen(counter));
  }

  /* ---- A right match is a fitting rewrite ---- */

  lemma UniqueFind(p: Code, j: nat)
    requires UniqueLabels(p) && j < |p| && p[j].Label?
    ensures Find(p, p[j].name) == j
  {
    FindIs(p, p[j].name, j);
  }

  lemma BranchesCompose(k: nat, first: Item, x: Name, second: Item, s: Item, t: Item, added: Code, new': Name)
    requires E.BranchRule(k, first, x, second, s, t, new', added)
    requires k >= 7 ==> first.b == second.b
    ensures M.IsBranch(first) && M.IsBranch(second) && M.IsBranch(s) && M.IsBranch(t)
    ensures Sim.SameDecision(t, second) && Sim.Composes(first, x, second, s, added)
  {
  }

  lemma ThreadRight(pre: Code, q: Code, post: Code, counter: nat, k: nat, i: nat, rw: Sim.Rewrite)
    requires k < R.SetCount && i < |q| && Edits(q, counter, k, i, rw) && rw.Thread? && Right(q, k, i)
    requires UniqueLabels(Whole(pre, q, post)) && Sim.Shape(Moved(rw, |pre|), Whole(pre, q, post))
    ensures Sim.Fits(Moved(rw, |pre|), Whole(pre, q, post))
  {
    hide R.Apply, E.LastHit, Sim.After;
    var p, n, j := Whole(pre, q, post), |pre|, rw.j;
    WholeAt(pre, q, post, i);
    WholeAt(pre, q, post, j);
    WholeAt(pre, q, post, j + 1);
    hide Whole;
    BranchesCompose(k, q[i], q[j].name, q[j + 1], rw.s, rw.t, rw.added, Gen(counter));
    UniqueFind(p, n + j);
    hide E.BranchRule, Sim.SameDecision, Sim.Composes, M.IsBranch, UniqueLabels, Sim.AddsNewLabel;
    assert Sim.ThreadFits(Moved(rw, n), p);
  }

  lemma PairRight(pre: Code, q: Code, post: Code, counter: nat, k: nat, i: nat, rw: Sim.Rewrite)
    requires k < R.SetCount && i < |q| && Edits(q, counter, k, i, rw) && rw.Pair? && Right(q, k, i)
    requires Sim.Shape(Moved(rw, |pre|), Whole(pre, q, post))
    ensures Sim.Fits(Moved(rw, |pre|), Whole(pre, q, post))
  {
    hide R.Apply, E.LastHit, Sim.After;
    var p, n := Whole(pre, q, post), |pre|;
    WholeAt(pre, q, post, i);
    WholeAt(pre, q, post, rw.j);
    forall g | n + i < g < n + rw.j ensures p[g] == q[g - n] {
      WholeAt(pre, q, post, g - n);
    }
    hide Whole, E.PairAt, Sim.Unconcerned;
    assert Sim.PairFits(Moved(rw, n), p);
  }

  lemma ReplaceRight(pre: Code, q: Code, post: Code, counter: nat, k: nat, i: nat, rw: Sim.Rewrite)
    requires k < R.SetCount && i < |q| && Edits(q, counter, k, i, rw) && rw.Replace? && Right(q, k, i)
    requires Sim.Shape(Moved(rw, |pre|), Whole(pre, q, post))
    ensures Sim.Fits(Moved(rw, |pre|), Whole(pre, q, post))
  {
    hide R.Apply, E.LastHit, Sim.After;
    WholeAt(pre, q, post, i);
    hide Whole;
  }

  lemma RightFits(pre: Code, q: Code, post: Code, counter: nat, k: nat, i: nat, rw: Sim.Rewrite)
    requires k < R.SetCount && i < |q| && Edits(q, counter, k, i, rw) && Right(q, k, i)
    requires UniqueLabels(Whole(pre, q, post)) && Sim.Shape(Moved(rw, |pre|), Whole(pre, q, post))
    ensures Sim.Fits(Moved(rw, |pre|), Whole(pre, q, post))
  {
    match rw
    case Thread(_, _, _, _, _) => ThreadRight(pre, q, post, counter, k, i, rw);
    case Pair(_, _) => PairRight(pre, q, post, counter, k, i, rw);
    case Replace(_, _) => ReplaceRight(pre, q, post, counter, k, i, rw);
  }

  /* ---- What a rewrite keeps besides the meaning ---- */

  /** Where the item at position k of the new program comes from. */
  function Origin(rw: Sim.Rewrite, k: nat): nat {
    match rw
    case Thread(_, j, _, _, added) => if k < j + 2 then k else if k < j + 2 + |added| then 0 else k - |added|
    case Pair(i, j) => if k < i then k else if k < j - 1 then k + 1 else k + 2
    case Replace(_, _) => k
  }

  lemma ThreadOrigin(rw: Sim.Rewrite, p: Code, k: nat)
    requires Sim.Shape(rw, p) && rw.Thread? && k < |Sim.After(rw, p)| && Sim.After(rw, p)[k].Label?
    ensures (rw.added != [] && k == rw.j + 2 && Sim.After(rw, p)[k] == rw.added[0])
      || (Origin(rw, k) < |p| && p[Origin(rw, k)] == Sim.After(rw, p)[k])
  {
    Sim.ThreadInstr(rw, p);
    Sim.ThreadSize(rw, p);
    hide Sim.After, Sim.Shape, Sim.AddsNewLabel;
    if !(rw.j + 2 <= k < rw.j + 2 + |rw.added|) { Sim.ThreadItem(rw, p, Origin(rw, k)); }
  }

  lemma LabelOrigin(rw: Sim.Rewrite, p: Code, k: nat)
    requires Sim.Shape(rw, p) && k < |Sim.After(rw, p)| && Sim.After(rw, p)[k].Label?
    ensures (rw.Thread? && rw.added != [] && k == rw.j + 2 && Sim.After(rw, p)[k] == rw.added[0])
      || (Origin(rw, k) < |p| && p[Origin(rw, k)] == Sim.After(rw, p)[k])
  {
    if rw.Thread? { ThreadOrigin(rw, p, k); hide *; }
  }

  lemma UniqueKept(rw: Sim.Rewrite, p: Code)
    requires Sim.Shape(rw, p) && UniqueLabels(p)
    ensures UniqueLabels(Sim.After(rw, p))
  {
    var q := Sim.After(rw, p);
    forall a, b | 0 <= a < b < |q| && q[a].Label?
      ensures q[a] != q[b]
    {
      if q[a] == q[b] {
        LabelOrigin(rw, p, a);
        LabelOrigin(rw, p, b);
        hide Sim.After;
        assert false;
      }
    }
  }

  lemma ItemOrigin(rw: Sim.Rewrite, p: Code, item: Item)
    requires Sim.Inside(rw, p) && item in Sim.After(rw, p)
    ensures item in p || (rw.Thread? && (item == rw.s || item == rw.t || item in rw.added))
      || (rw.Replace? && item == rw.item)
  {
  }

  lemma TidyKept(rw: Sim.Rewrite, p: Code, counter: nat, counter': nat)
    requires Sim.Shape(rw, p) && Tidy(p, counter) && counter' >= counter
    requires rw.Thread? ==> NewNames(rw, counter, counter')
    requires rw.Replace? ==> forall n :: !Mentions(rw.item, n)
    ensures Tidy(Sim.After(rw, p), counter')
  {
    UniqueKept(rw, p);
    hide UniqueLabels;
    forall item | item in Sim.After(rw, p)
      ensures forall n :: n >= counter' ==> !Mentions(item, Gen(n))
    {
      ItemOrigin(rw, p, item);
    }
  }

  /** An application keeps labels unique; a generated label never meets another. */
  lemma RuleKeepsTidy(pre: Code, q: Code, post: Code, counter: nat, k: nat, i: nat)
    requires k < R.SetCount && i < |q| && R.Apply(q, counter, k, i).Present?
    requires Tidy(Whole(pre, q, post), counter)
    ensures var r := R.Apply(q, counter, k, i).value;
      r.counter >= counter && Tidy(Whole(pre, r.queue, post), r.counter)
  {
    var rw := WholeEdit(pre, q, post, counter, k, i);
    hide R.Apply, Whole, Sim.After, E.LastHit;
    TidyKept(Moved(rw, |pre|), Whole(pre, q, post), counter, R.Apply(q, counter, k, i).value.counter);
  }

  /** A right match: applying any rule set anywhere in the window keeps the meaning of
      the whole program, for every meaning of the other instructions. */
  lemma RuleKeepsMeaning(sem: M.Semantics, pre: Code, q: Code, post: Code, counter: nat, k: nat, i: nat)
    requires k < R.SetCount && i < |q| && R.Apply(q, counter, k, i).Present? && Right(q, k, i)
    requires Tidy(Whole(pre, q, post), counter)
    ensures M.SameMeaning(sem, Whole(pre, q, post),
      Whole(pre, R.Apply(q, counter, k, i).value.queue, post))
  {
    var rw := WholeEdit(pre, q, post, counter, k, i);
    hide R.Apply, Whole, Sim.After, E.LastHit, Right, Edits;
    RightFits(pre, q, post, counter, k, i, rw);
    Sim.RewriteKeepsMeaning(sem, Moved(rw, |pre|), Whole(pre, q, post));
  }
}
