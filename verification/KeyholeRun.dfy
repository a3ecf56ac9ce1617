/** The optimiser's whole run over a source file, as a function: what it gives out means
    what it was given, and when it comes to an end at all. */
module KeyholeRun {
  import opened Assembly
  import M = Machine
  import R = KeyholeRules
  import E = KeyholeEffect
  import S = KeyholeSound
  import W = KeyholePasses
  import K = KeyholeMatch
  import A = KeyholeRunaway

  const TargetSize: nat := 20

  /* ---- The input ---- */

  datatype Command = Start(proc: string) | Add(item: Item)

  function ItemOf(command: Command): Item {
    match command
    case Start(name) => Label(Entry(name))
    case Add(item) => item
  }

  function Given(commands: seq<Command>): (code: Code)
    ensures |code| == |commands|
    ensures forall k :: 0 <= k < |code| ==> code[k] == ItemOf(commands[k])
  {
    seq(|commands|, k requires 0 <= k < |commands| => ItemOf(commands[k]))
  }

  /* ---- The run ---- */

  datatype Progress = Progress(emitted: Code, queue: Code, counter: nat)

  function Output(p: Progress): Code { p.emitted + p.queue }

  /** Room for one more item: the oldest items have moved out. */
  function Shift(p: Progress): (r: Progress)
    ensures Output(r) == Output(p) && r.counter == p.counter
    ensures |r.queue| == if |p.queue| < 20 then |p.queue| else 19
    decreases |p.queue|
  {
    if |p.queue| < TargetSize then p
    else
      assert p.emitted + p.queue == p.emitted + [p.queue[0]] + p.queue[1..];
      Shift(Progress(p.emitted + [p.queue[0]], p.queue[1..], p.counter))
  }

  /** The window the optimiser is given with an item. */
  function Presented(p: Progress, item: Item): W.Window {
    R.Rewritten(Shift(p).queue + [item], p.counter)
  }

  ghost function Fed(p: Progress, command: Command): Progress {
    match command
    case Start(_) => Progress(p.emitted + p.queue + [ItemOf(command)], [], p.counter)
    case Add(item) =>
      var w := W.Rest(Presented(p, item));
      Progress(Shift(p).emitted, w.queue, w.counter)
  }

  ghost function Run(commands: seq<Command>): Progress {
    if commands == [] then Progress([], [], 0)
    else Fed(Run(commands[..|commands| - 1]), commands[|commands| - 1])
  }

  /** The optimiser comes to rest after every item. */
  ghost predicate Halts(commands: seq<Command>) {
    forall n :: 0 <= n < |commands| && commands[n].Add? ==>
      W.Ends(Presented(Run(commands[..n]), commands[n].item))
  }

  /** No item makes its window a runaway. */
  ghost predicate NoRunaway(commands: seq<Command>) {
    forall n :: 0 <= n < |commands| && commands[n].Add? ==>
      !A.Runaway(Presented(Run(commands[..n]), commands[n].item).queue)
  }

  /* ---- Right matches ---- */

  predicate TurnRight(w: W.Window, k: nat)
    requires k < R.SetCount
  {
    W.FirstAt(w, k, 0) < |w.queue| ==> S.Right(w.queue, k, W.FirstAt(w, k, 0))
  }

  predicate OnwardRight(w: W.Window, k: nat)
    decreases R.SetCount - k
  {
    k < R.SetCount ==> TurnRight(w, k) && OnwardRight(W.Turn(w, k), k + 1)
  }

  /** Every match that is rewritten on the way is right. */
  ghost predicate RunRight(w: W.Window) { forall n: nat :: OnwardRight(W.Passes(w, n), 0) }

  ghost predicate AllRight(commands: seq<Command>) {
    forall n :: 0 <= n < |commands| && commands[n].Add? ==>
      RunRight(Presented(Run(commands[..n]), commands[n].item))
  }

  /* ---- One window for another ---- */

  /** The second window may stand for the first one anywhere: labels stay unique, and if
      the matches were right the whole program means the same. */
  ghost predicate Refines(from: W.Window, to: W.Window, right: bool) {
    from.counter <= to.counter && forall pre, post :: RefinesIn(pre, from, post, to, right)
  }

  ghost predicate RefinesIn(pre: Code, from: W.Window, post: Code, to: W.Window, right: bool) {
    S.Tidy(S.Whole(pre, from.queue, post), from.counter) ==>
      && S.Tidy(S.Whole(pre, to.queue, post), to.counter)
      && (right ==> forall sem :: M.SameMeaning(sem, S.Whole(pre, from.queue, post), S.Whole(pre, to.queue, post)))
  }

  lemma RefinesRefl(w: W.Window, right: bool)
    ensures Refines(w, w, right)
  {
    forall pre, post ensures RefinesIn(pre, w, post, w, right) {
      forall sem { M.SameMeaningRefl(sem, S.Whole(pre, w.queue, post)); }
    }
  }

  lemma RefinesTrans(a: W.Window, b: W.Window, c: W.Window, first: bool, second: bool)
    requires Refines(a, b, first) && Refines(b, c, second)
    ensures Refines(a, c, first && second)
  {
    hide S.Tidy, S.Whole;
    var both := first && second;
    forall pre, post ensures RefinesIn(pre, a, post, c, both) {
      assert RefinesIn(pre, a, post, b, first) && RefinesIn(pre, b, post, c, second);
      if S.Tidy(S.Whole(pre, a.queue, post), a.counter) && both {
        forall sem ensures M.SameMeaning(sem, S.Whole(pre, a.queue, post), S.Whole(pre, c.queue, post)) {
          M.SameMeaningTrans(sem, S.Whole(pre, a.queue, post), S.Whole(pre, b.queue, post), S.Whole(pre, c.queue, post));
        }
      }
    }
  }

  lemma TurnRefines(w: W.Window, k: nat)
    requires k < R.SetCount
    ensures Refines(w, W.Turn(w, k), TurnRight(w, k))
  {
    var at := W.FirstAt(w, k, 0);
    hide S.Tidy, S.Whole, R.Apply, S.Right;
    if at < |w.queue| {
      var to := W.Turn(w, k);
      CounterGrows(w, k, at);
      var right := TurnRight(w, k);
      forall pre, post ensures RefinesIn(pre, w, post, to, right) {
        if S.Tidy(S.Whole(pre, w.queue, post), w.counter) {
          S.RuleKeepsTidy(pre, w.queue, post, w.counter, k, at);
          if TurnRight(w, k) {
            forall sem ensures M.SameMeaning(sem, S.Whole(pre, w.queue, post), S.Whole(pre, to.queue, post)) {
              S.RuleKeepsMeaning(sem, pre, w.queue, post, w.counter, k, at);
            }
          }
        }
      }
    } else {
      RefinesRefl(w, TurnRight(w, k));
    }
  }

  lemma CounterGrows(w: W.Window, k: nat, at: nat)
    requires k < R.SetCount && at < |w.queue| && R.Apply(w.queue, w.counter, k, at).Present?
    ensures R.Apply(w.queue, w.counter, k, at).value.counter >= w.counter
  {
    E.CounterGrows(w.queue, w.counter, k, at);
  }

  lemma {:induction false} OnwardRefines(w: W.Window, k: nat)
    ensures Refines(w, W.Onward(w, k), OnwardRight(w, k))
    decreases R.SetCount - k
  {
    hide Refines, TurnRight, W.Turn;
    if k < R.SetCount {
      TurnRefines(w, k);
      OnwardRefines(W.Turn(w, k), k + 1);
      RefinesTrans(w, W.Turn(w, k), W.Onward(w, k), TurnRight(w, k), OnwardRight(W.Turn(w, k), k + 1));
    } else {
      RefinesRefl(w, true);
    }
  }

  lemma {:induction false} PassesRefine(w: W.Window, n: nat)
    ensures Refines(w, W.Passes(w, n), RunRight(w))
    decreases n
  {
    hide Refines, RunRight, W.Pass;
    if n == 0 {
      RefinesRefl(w, RunRight(w));
    } else {
      OnePass(w);
      PassesRefine(W.Pass(w), n - 1);
      RefinesTrans(w, W.Pass(w), W.Passes(w, n), OnwardRight(w, 0), RunRight(W.Pass(w)));
      Weaker(w, W.Passes(w, n), OnwardRight(w, 0) && RunRight(W.Pass(w)), RunRight(w));
    }
  }

  lemma OnePass(w: W.Window)
    ensures Refines(w, W.Pass(w), OnwardRight(w, 0))
    ensures RunRight(w) ==> OnwardRight(w, 0) && RunRight(W.Pass(w))
  {
    hide Refines, OnwardRight, W.Onward;
    OnwardRefines(w, 0);
    assert W.Passes(w, 0) == w;
    forall n: nat ensures W.Passes(w, n + 1) == W.Passes(W.Pass(w), n) {
    }
  }

  lemma Weaker(from: W.Window, to: W.Window, right: bool, more: bool)
    requires Refines(from, to, right) && (more ==> right)
    ensures Refines(from, to, more)
  {
    hide S.Tidy, S.Whole;
    forall pre, post ensures RefinesIn(pre, from, post, to, more) {
      assert RefinesIn(pre, from, post, to, right);
    }
  }

  lemma RestRefines(w: W.Window)
    ensures Refines(w, W.Rest(w), RunRight(w))
  {
    hide Refines, RunRight, W.Settled;
    if W.Ends(w) {
      var n: nat :| W.Settled(W.Passes(w, n)) && W.Rest(w) == W.Passes(w, n);
      PassesRefine(w, n);
    } else {
      RefinesRefl(w, RunRight(w));
    }
  }

  /* ---- The run keeps the meaning ---- */

  /** The output so far may stand for the input so far, whatever follows. */
  ghost predicate Keeps(source: Code, p: Progress, right: bool) {
    forall post :: KeepsBefore(source, p, post, right)
  }

  ghost predicate KeepsBefore(source: Code, p: Progress, post: Code, right: bool) {
    S.Tidy(source + post, 0) ==>
      && S.Tidy(Output(p) + post, p.counter)
      && (right ==> forall sem :: M.SameMeaning(sem, source + post, Output(p) + post))
  }

  lemma KeepsFed(source: Code, p: Progress, command: Command, right: bool)
    requires Keeps(source, p, right)
    ensures Keeps(source + [ItemOf(command)], Fed(p, command),
      right && (command.Add? ==> RunRight(Presented(p, command.item))))
  {
    hide Keeps, KeepsBefore, RunRight, Fed;
    var all := right && (command.Add? ==> RunRight(Presented(p, command.item)));
    var next, to := source + [ItemOf(command)], Fed(p, command);
    forall post ensures KeepsBefore(next, to, post, all) {
      KeepsGiven(source, p, [ItemOf(command)] + post, right);
      if command.Add? {
        FedItem(source, p, command.item, post, right);
      } else {
        FedStart(source, p, command, post, right);
      }
    }
    KeepsAlways(next, to, all);
  }

  lemma KeepsAlways(source: Code, p: Progress, right: bool)
    requires forall post :: KeepsBefore(source, p, post, right)
    ensures Keeps(source, p, right)
  {
  }

  lemma KeepsGiven(source: Code, p: Progress, post: Code, right: bool)
    requires Keeps(source, p, right)
    ensures KeepsBefore(source, p, post, right)
  {
    hide KeepsBefore;
  }

  lemma FedStart(source: Code, p: Progress, command: Command, post: Code, right: bool)
    requires command.Start? && KeepsBefore(source, p, [ItemOf(command)] + post, right)
    ensures KeepsBefore(source + [ItemOf(command)], Fed(p, command), post, right)
  {
    hide S.Tidy;
    assert source + [ItemOf(command)] + post == source + ([ItemOf(command)] + post);
    assert Output(Fed(p, command)) + post == Output(p) + ([ItemOf(command)] + post);
  }

  lemma FedItem(source: Code, p: Progress, item: Item, post: Code, right: bool)
    requires KeepsBefore(source, p, [item] + post, right)
    ensures KeepsBefore(source + [item], Fed(p, Add(item)), post, right && RunRight(Presented(p, item)))
  {
    hide S.Tidy, RunRight, W.Rest;
    var w, s, p' := Presented(p, item), Shift(p), Fed(p, Add(item));
    RestRefines(w);
    assert RefinesIn(s.emitted, w, post, W.Rest(w), RunRight(w));
    assert S.Whole(s.emitted, w.queue, post) == Output(p) + ([item] + post);
    assert source + [item] + post == source + ([item] + post);
    assert S.Whole(s.emitted, p'.queue, post) == Output(p') + post;
    hide Fed, Presented, Shift, Output, S.Whole;
    if S.Tidy(source + [item] + post, 0) && right && RunRight(w) {
      forall sem ensures M.SameMeaning(sem, source + [item] + post, Output(p') + post) {
        M.SameMeaningTrans(sem, source + [item] + post, Output(p) + ([item] + post), Output(p') + post);
      }
    }
  }

  lemma {:induction false} RunKeeps(commands: seq<Command>)
    ensures Keeps(Given(commands), Run(commands), AllRight(commands))
  {
    hide RunRight, Keeps, Fed, AllRight, ItemOf;
    if commands == [] {
      KeepsNothing(AllRight(commands));
    } else {
      var n := |commands| - 1;
      var front := commands[..n];
      RunKeeps(front);
      assert Given(commands) == Given(front) + [ItemOf(commands[n])];
      KeepsFed(Given(front), Run(front), commands[n], AllRight(front));
      if AllRight(commands) { RightFront(commands); }
      KeepsWeaker(Given(commands), Run(commands),
        AllRight(front) && (commands[n].Add? ==> RunRight(Presented(Run(front), commands[n].item))),
        AllRight(commands));
    }
  }

  lemma RightFront(commands: seq<Command>)
    requires commands != [] && AllRight(commands)
    ensures AllRight(commands[..|commands| - 1])
    ensures var n := |commands| - 1; commands[n].Add? ==> RunRight(Presented(Run(commands[..n]), commands[n].item))
  {
    hide RunRight, Presented;
    var front := commands[..|commands| - 1];
    forall n | 0 <= n < |front| && front[n].Add? ensures RunRight(Presented(Run(front[..n]), front[n].item)) {
      assert front[..n] == commands[..n] && front[n] == commands[n];
    }
  }

  lemma KeepsWeaker(source: Code, p: Progress, right: bool, more: bool)
    requires Keeps(source, p, right) && (more ==> right)
    ensures Keeps(source, p, more)
  {
    hide S.Tidy;
    forall post ensures KeepsBefore(source, p, post, more) {
      assert KeepsBefore(source, p, post, right);
    }
  }

  lemma KeepsNothing(right: bool)
    ensures Keeps([], Progress([], [], 0), right)
  {
    forall post ensures KeepsBefore([], Progress([], [], 0), post, right) {
      assert [] + post == post && Output(Progress([], [], 0)) + post == post;
      forall sem { M.SameMeaningRefl(sem, post); }
    }
  }

  /** What comes out means what went in, for every meaning of the other instructions, as
      long as each match on the way was right. */
  lemma RunKeepsMeaning(sem: M.Semantics, commands: seq<Command>)
    requires S.Tidy(Given(commands), 0) && AllRight(commands)
    ensures M.SameMeaning(sem, Given(commands), Output(Run(commands)))
  {
    hide S.Tidy, AllRight, Run;
    RunKeeps(commands);
    assert KeepsBefore(Given(commands), Run(commands), [], AllRight(commands));
    assert Given(commands) + [] == Given(commands) && Output(Run(commands)) + [] == Output(Run(commands));
  }

  /** The window is settled if and only if nothing is left in it that a rule set looks for. */
  lemma SettledExact(w: W.Window)
    ensures W.Settled(w) <==> K.NothingCalls(w.queue)
  {
    hide R.Apply, K.Calls;
    forall k: nat, i: nat | k < R.SetCount && i < |w.queue|
      ensures R.Apply(w.queue, w.counter, k, i).Present? <==> K.Calls(w.queue, k, i)
    {
      K.AppliesExact(w.queue, w.counter, k, i);
    }
  }

  /* ---- When the run comes to an end ---- */

  /** The window stands settled between items. */
  predicate Standing(p: Progress) { W.Settled(R.Rewritten(p.queue, p.counter)) }

  /** A settled window stays settled when its oldest items have moved out. */
  lemma {:induction false} ShiftStanding(p: Progress)
    requires Standing(p)
    ensures Standing(Shift(p))
    decreases |p.queue|
  {
    if |p.queue| >= TargetSize {
      var q, q' := p.queue, p.queue[1..];
      hide R.Apply;
      forall k: nat, at: nat | k < R.SetCount && at < |q'| ensures R.Apply(q', p.counter, k, at).Absent? {
        if R.Apply(q', p.counter, k, at).Present? {
          LastInside(q', k, at, p.counter);
          var end := E.LastHit(q', k, at) + 1;
          assert q'[at..end] == q[at + 1..end + 1];
          K.MatchAlike(q', p.counter, at, q, p.counter, at + 1, k, end);
          assert false;
        }
      }
      ShiftStanding(Progress(p.emitted + [q[0]], q', p.counter));
    }
  }

  lemma LastInside(q: Code, k: nat, i: nat, counter: nat)
    requires k < R.SetCount && i < |q| && R.Apply(q, counter, k, i).Present?
    ensures i <= E.LastHit(q, k, i) < |q|
  {
    if k < 2 {
      var j := E.SwapEffect(q, counter, k, i);
    } else if k < 4 {
      E.ShortenEffect(q, counter, k, i);
    } else {
      var j, s, t, added := E.ThreadEffect(q, counter, k, i);
    }
  }

  /** A run that has come to rest after every item so far stands settled. */
  lemma RunStanding(commands: seq<Command>)
    requires Halts(commands)
    ensures Standing(Run(commands)) && K.NothingCalls(Run(commands).queue)
  {
    hide R.Apply, W.Ends, W.Rest, K.NothingCalls;
    SettledExact(R.Rewritten(Run(commands).queue, Run(commands).counter));
    if commands != [] {
      var n := |commands| - 1;
      if commands[n].Add? { W.RestSettled(Presented(Run(commands[..n]), commands[n].item)); }
    }
  }

  lemma TidyPart(pre: Code, q: Code, post: Code, counter: nat)
    requires S.Tidy(pre + q + post, counter)
    ensures S.Tidy(q, counter)
  {
    var p := pre + q + post;
    forall a, b | 0 <= a < b < |q| && q[a].Label? ensures q[a] != q[b] {
      assert p[|pre| + a] == q[a] && p[|pre| + b] == q[b];
    }
    assert forall item :: item in q ==> item in p;
  }

  /** Each window the optimiser is given has unique labels. */
  lemma PresentedTidy(commands: seq<Command>, n: nat)
    requires S.Tidy(Given(commands), 0) && n < |commands| && commands[n].Add?
    ensures S.Tidy(Presented(Run(commands[..n]), commands[n].item).queue, Run(commands[..n]).counter)
  {
    hide S.Tidy, Keeps, Run, AllRight;
    var front, item := commands[..n], commands[n].item;
    var p, post := Run(front), [item] + Given(commands)[n + 1..];
    RunKeeps(front);
    KeepsGiven(Given(front), p, post, AllRight(front));
    assert Given(commands) == Given(front) + post;
    var s := Shift(p);
    assert Output(p) + post == s.emitted + (s.queue + [item]) + Given(commands)[n + 1..];
    TidyPart(s.emitted, s.queue + [item], Given(commands)[n + 1..], p.counter);
  }

  lemma ItemExact(commands: seq<Command>, n: nat)
    requires S.Tidy(Given(commands), 0) && n < |commands| && commands[n].Add? && Halts(commands[..n])
    ensures var w := Presented(Run(commands[..n]), commands[n].item); W.Ends(w) <==> !A.Runaway(w.queue)
  {
    hide S.Tidy, Run, Halts, A.Runaway, W.Ends, W.Settled;
    PresentedTidy(commands, n);
    RunStanding(commands[..n]);
    ShiftStanding(Run(commands[..n]));
    A.EndsExact(Shift(Run(commands[..n])).queue, Run(commands[..n]).counter, commands[n].item);
  }

  lemma {:induction false} HaltsUpTo(commands: seq<Command>, n: nat)
    requires S.Tidy(Given(commands), 0) && n <= |commands| && NoRunaway(commands)
    ensures Halts(commands[..n])
    decreases n
  {
    hide S.Tidy, Run, A.Runaway, W.Ends, Presented;
    if n > 0 {
      HaltsUpTo(commands, n - 1);
      if commands[n - 1].Add? { ItemExact(commands, n - 1); }
      var front := commands[..n];
      forall m | 0 <= m < n && front[m].Add? ensures W.Ends(Presented(Run(front[..m]), front[m].item)) {
        assert front[..m] == commands[..m] && front[m] == commands[m];
        if m < n - 1 { assert commands[..n - 1][..m] == commands[..m] && commands[..n - 1][m] == commands[m]; }
      }
    }
  }

  lemma HaltsFront(commands: seq<Command>, n: nat)
    requires Halts(commands) && n <= |commands|
    ensures Halts(commands[..n])
  {
    hide Run, W.Ends, Presented;
    var front := commands[..n];
    forall m | 0 <= m < n && front[m].Add? ensures W.Ends(Presented(Run(front[..m]), front[m].item)) {
      assert front[..m] == commands[..m] && front[m] == commands[m];
    }
  }

  /** The optimiser comes to rest after every item of a source file with unique labels if
      and only if no item makes its window a runaway. */
  lemma HaltsExact(commands: seq<Command>)
    requires S.Tidy(Given(commands), 0)
    ensures Halts(commands) <==> NoRunaway(commands)
  {
    hide S.Tidy, Run, A.Runaway, W.Ends, Presented;
    if NoRunaway(commands) {
      HaltsUpTo(commands, |commands|);
      assert commands[..|commands|] == commands;
    }
    if Halts(commands) {
      forall n | 0 <= n < |commands| && commands[n].Add?
        ensures !A.Runaway(Presented(Run(commands[..n]), commands[n].item).queue)
      {
        HaltsFront(commands, n);
        ItemExact(commands, n);
      }
    }
  }
}
