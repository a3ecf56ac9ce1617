/** The keyhole optimiser itself: a window over the items on their way to the
    code generator, rewritten in place. */
module Keyhole {
  import opened Assembly
  import opened KeyholeRun
  import M = Machine
  import R = KeyholeRules
  import K = KeyholeMatch
  import S = KeyholeSound
  import W = KeyholePasses

  /* ---- Matching and writing ---- */

  /** `mapped` records exactly the hits at positions up to `at`. */
  ghost predicate Records(mapped: map<nat, R.Rule>, hits: seq<R.Hit>, at: int) {
    && (forall h :: 0 <= h < |hits| ==>
          hits[h].at <= at && hits[h].at in mapped && mapped[hits[h].at] == hits[h].rule)
    && (forall p: nat :: p in mapped && p <= at ==> exists h :: 0 <= h < |hits| && hits[h].at == p)
  }

  lemma RecordHit(mapped: map<nat, R.Rule>, hits: seq<R.Hit>, at: nat, n: nat, hit: R.Hit)
    requires Records(mapped, hits, n) && hit.at == at <= n
    requires forall h :: 0 <= h < |hits| ==> hits[h].at < at
    ensures Records(mapped[at := hit.rule], hits + [hit], n)
  {
    var hits' := hits + [hit];
    var mapped' := mapped[at := hit.rule];
    forall p: nat | p in mapped' && p <= n
      ensures exists h :: 0 <= h < |hits'| && hits'[h].at == p
    {
      if p == at {
        assert hits'[|hits|].at == p;
      } else {
        var h :| 0 <= h < |hits| && hits[h].at == p;
        assert hits'[h].at == p;
      }
    }
  }

  /** The last hit, if there is one at this position. */
  lemma LastRecord(mapped: map<nat, R.Rule>, hits: seq<R.Hit>, at: nat)
    requires Records(mapped, hits, at) && R.HitsIn(hits, at + 1) && at in mapped
    ensures hits != [] && hits[|hits| - 1] == R.Hit(at, mapped[at])
  {
    var h :| 0 <= h < |hits| && hits[h].at == at;
    assert hits[|hits| - 1].at <= at;
  }

  /** The hits below the last one. */
  lemma RecordsBelow(mapped: map<nat, R.Rule>, hits: seq<R.Hit>, at: nat)
    requires Records(mapped, hits, at) && R.HitsIn(hits, at + 1)
    ensures at in mapped ==>
      && hits != [] && hits[|hits| - 1] == R.Hit(at, mapped[at]) && R.HitsIn(hits[..|hits| - 1], at)
      && Records(mapped, hits[..|hits| - 1], at - 1)
    ensures at !in mapped ==> Records(mapped, hits, at - 1) && R.HitsIn(hits, at)
  {
    if at in mapped {
      LastRecord(mapped, hits, at);
      RestRecords(mapped, hits, at);
    } else {
      assert forall h :: 0 <= h < |hits| ==> hits[h].at != at;
    }
  }

  lemma RestRecords(mapped: map<nat, R.Rule>, hits: seq<R.Hit>, at: nat)
    requires Records(mapped, hits, at) && R.HitsIn(hits, at + 1) && hits != [] && hits[|hits| - 1].at == at
    ensures R.HitsIn(hits[..|hits| - 1], at) && Records(mapped, hits[..|hits| - 1], at - 1)
  {
    var rest := hits[..|hits| - 1];
    assert forall h :: 0 <= h < |rest| ==> rest[h] == hits[h] && hits[h].at < at;
    hide R.HitsIn;
    forall p: nat | p in mapped && p <= at - 1
      ensures exists h :: 0 <= h < |rest| && rest[h].at == p
    {
      var h :| 0 <= h < |hits| && hits[h].at == p;
      assert rest[h].at == p;
    }
  }

  lemma {:induction false} HitsFew(hits: seq<R.Hit>, n: nat)
    requires R.HitsIn(hits, n)
    ensures |hits| <= n
    decreases |hits|
  {
    if hits != [] { HitsFew(hits[..|hits| - 1], hits[|hits| - 1].at); }
  }

  ghost function Prepended(hits: seq<R.Hit>, rest: R.Option<R.Match>): R.Option<R.Match> {
    if rest.Absent? then R.Absent
    else R.Present(R.Match(rest.value.opMap, hits + rest.value.hits))
  }

  lemma ScanStart(q: Code, i: nat, m: R.OpMap, rules: R.RuleSet)
    requires i < |q| && rules != [] && R.Unmapped.Map(q[i], rules[0].input) == R.Present(m)
    ensures R.MatchAt(q, i, rules) == Prepended([R.Hit(i, rules[0])], R.Scan(q, i + 1, m, rules[1..]))
  {
  }

  /** One item of a scan with rules left. */
  lemma ScanItem(q: Code, at: nat, m: R.OpMap, rules: R.RuleSet, r: nat, hits: seq<R.Hit>)
    requires at < |q| && r < |rules|
    ensures m.CanMap(q[at], rules[r].input) ==>
      Prepended(hits, R.Scan(q, at, m, rules[r..]))
        == Prepended(hits + [R.Hit(at, rules[r])], R.Scan(q, at + 1, m.Mapped(q[at], rules[r].input), rules[r + 1..]))
    ensures !m.CanMap(q[at], rules[r].input) ==>
      R.Scan(q, at, m, rules[r..])
        == if R.Blocks(m, q[at], rules[r].flag) then R.Absent else R.Scan(q, at + 1, m, rules[r..])
  {
    assert rules[r..][0] == rules[r] && rules[r..][1..] == rules[r + 1..];
    if m.CanMap(q[at], rules[r].input) {
      var rest := R.Scan(q, at + 1, m.Mapped(q[at], rules[r].input), rules[r + 1..]);
      assert rest.Present? ==>
        hits + ([R.Hit(at, rules[r])] + rest.value.hits) == hits + [R.Hit(at, rules[r])] + rest.value.hits;
    }
  }

  /** What the end of the queue or of the rule set makes of a scan. */
  lemma ScanEnd(q: Code, at: nat, m: R.OpMap, rules: R.RuleSet, r: nat, hits: seq<R.Hit>)
    requires at <= |q| && r <= |rules|
    ensures r == |rules| ==> Prepended(hits, R.Scan(q, at, m, rules[r..])) == R.Present(R.Match(m, hits))
    ensures r < |rules| && at == |q| ==> Prepended(hits, R.Scan(q, at, m, rules[r..])) == R.Absent
  {
    if r == |rules| { assert rules[r..] == [] && hits + [] == hits; }
  }

  /** The operand map of a match and the rule that matched at each position. */
  method FindMatch(q: Code, k: nat, start: nat)
      returns (found: bool, m: R.OpMap, mapped: map<nat, R.Rule>)
    requires k < R.SetCount && start < |q|
    ensures found == R.MatchAt(q, start, R.Set(k)).Present?
    ensures found ==>
      var hit := R.MatchAt(q, start, R.Set(k)).value;
      m == hit.opMap && Records(mapped, hit.hits, |q| - 1) && R.HitsIn(hit.hits, |q|)
  {
    R.SetsWellFormed(k);
    var rules := R.Set(k);
    hide R.Set, R.Scan, R.Blocks, R.HitsIn, Prepended;
    m, mapped := R.Unmapped, map[];
    var first := R.Unmapped.Map(q[start], rules[0].input);
    if first.Absent? { return false, m, mapped; }
    m := first.value;
    mapped := map[start := rules[0]];
    var r, at := 1, start + 1;
    ghost var hits := [R.Hit(start, rules[0])];
    ScanStart(q, start, m, rules);
    ghost var scan := R.MatchAt(q, start, rules);
    hide R.MatchAt;
    assert hits[0].at == start;
    while at < |q|
      invariant 1 <= r <= |rules| && start < at <= |q|
      invariant forall h :: 0 <= h < |hits| ==> hits[h].at < at
      invariant Records(mapped, hits, |q| - 1)
      invariant scan == Prepended(hits, R.Scan(q, at, m, rules[r..]))
    {
      hide Records;
      if r < |rules| {
        ScanItem(q, at, m, rules, r, hits);
        if m.CanMap(q[at], rules[r].input) {
          RecordHit(mapped, hits, at, |q| - 1, R.Hit(at, rules[r]));
          m := m.Mapped(q[at], rules[r].input);
          mapped := mapped[at := rules[r]];
          hits := hits + [R.Hit(at, rules[r])];
          r := r + 1;
        } else if R.Blocks(m, q[at], rules[r].flag) {
          AbsentStays(hits);
          return false, m, mapped;
        }
      } else {
        ScanEnd(q, at, m, rules, r, hits);
        ScanEnd(q, at + 1, m, rules, r, hits);
      }
      at := at + 1;
    }
    found := r == |rules|;
    ScanEnd(q, at, m, rules, r, hits);
    if found { R.MatchHits(q, start, rules); }
  }

  lemma AbsentStays(hits: seq<R.Hit>)
    ensures Prepended(hits, R.Absent) == R.Absent
  {
  }

  /** The hits up to a position are still to be written. */
  ghost predicate Writing(o: R.Output, mapped: map<nat, R.Rule>, left: seq<R.Hit>, at: int, final: R.Output) {
    && -1 <= at < |o.queue| && R.HitsIn(left, at + 1) && Records(mapped, left, at)
    && R.HitsIn(left, |o.queue|) && R.Write(o, left) == final
  }

  lemma WriteStart(o: R.Output, mapped: map<nat, R.Rule>, hits: seq<R.Hit>)
    requires R.HitsIn(hits, |o.queue|) && Records(mapped, hits, |o.queue| - 1)
    ensures Writing(o, mapped, hits, |o.queue| - 1, R.Write(o, hits))
  {
  }

  lemma WriteNext(o: R.Output, mapped: map<nat, R.Rule>, left: seq<R.Hit>, at: nat, final: R.Output)
    requires Writing(o, mapped, left, at, final)
    ensures at in mapped ==> left != [] && R.WellFormed(mapped[at])
    ensures at in mapped ==> Writing(R.WriteHit(o, R.Hit(at, mapped[at])), mapped, left[..|left| - 1], at - 1, final)
    ensures at !in mapped ==> Writing(o, mapped, left, at - 1, final)
  {
    RecordsBelow(mapped, left, at);
    hide Records, R.WriteHit;
  }

  lemma WriteEnd(o: R.Output, mapped: map<nat, R.Rule>, left: seq<R.Hit>, final: R.Output)
    requires Writing(o, mapped, left, -1, final)
    ensures o == final
  {
    HitsFew(left, 0);
  }

  class Optimiser {
    var queue: Code
    var counter: nat
    var emitted: Code
    ghost var given: seq<Command> // everything given so far

    function Window(): W.Window
      reads this
    {
      R.Rewritten(queue, counter)
    }

    /** The object is where the run over everything given so far is. */
    ghost predicate Valid()
      reads this
    {
      Progress(emitted, queue, counter) == Run(given)
    }

    constructor ()
      ensures Valid() && given == []
    {
      queue, counter, emitted, given := [], 0, [], [];
    }

    /** Writes the outputs of a match, last position first. */
    method WriteOut(start: R.OpMap, mapped: map<nat, R.Rule>, ghost hits: seq<R.Hit>)
      requires R.HitsIn(hits, |queue|) && Records(mapped, hits, |queue| - 1)
      modifies this`queue, this`counter
      ensures var o := R.Write(R.Output(old(queue), R.Filler(start, old(counter))), hits);
        queue == o.queue && counter == o.filler.counter
    {
      hide R.Write, R.WriteHit, Records, R.HitsIn, Writing;
      var m := start;
      var at := |queue| - 1;
      ghost var left := hits;
      ghost var final := R.Write(R.Output(queue, R.Filler(m, counter)), hits);
      WriteStart(R.Output(queue, R.Filler(m, counter)), mapped, hits);
      while at >= 0
        invariant -1 <= at < |queue|
        invariant Writing(R.Output(queue, R.Filler(m, counter)), mapped, left, at, final)
      {
        WriteNext(R.Output(queue, R.Filler(m, counter)), mapped, left, at, final);
        if at in mapped {
          var o := R.WriteHit(R.Output(queue, R.Filler(m, counter)), R.Hit(at, mapped[at]));
          queue, counter, m := o.queue, o.filler.counter, o.filler.opMap;
          left := left[..|left| - 1];
        }
        at := at - 1;
      }
      WriteEnd(R.Output(queue, R.Filler(m, counter)), mapped, left, final);
    }

    /** Applies rule set k at one position, if it matches there. */
    method OptimiseRule(k: nat, start: nat) returns (done: bool)
      requires k < R.SetCount && start < |queue|
      modifies this`queue, this`counter
      ensures done == R.Apply(old(queue), old(counter), k, start).Present?
      ensures done ==> R.Present(R.Rewritten(queue, counter)) == R.Apply(old(queue), old(counter), k, start)
      ensures !done ==> queue == old(queue) && counter == old(counter)
    {
      var m, mapped;
      done, m, mapped := FindMatch(queue, k, start);
      if done {
        WriteOut(m, mapped, R.MatchAt(queue, start, R.Set(k)).value.hits);
      }
    }

    /** Applies rule set k at the first position where it matches. */
    method OptimiseRuleInQueue(k: nat) returns (changed: bool)
      requires k < R.SetCount
      modifies this`queue, this`counter
      ensures Window() == W.Turn(old(Window()), k)
      ensures changed <==> !W.Idle(old(Window()), k)
    {
      ghost var w := Window();
      W.TurnIdle(w, k);
      TurnAt(w, k);
      hide R.Apply, W.Turn, W.Idle;
      changed := false;
      var i := 0;
      while i < |queue|
        invariant i <= W.FirstAt(w, k, 0) <= |queue| && Window() == w
      {
        changed := OptimiseRule(k, i);
        if changed { return; }
        i := i + 1;
      }
    }

    /** Applies every rule set once. */
    method OptimiseOnce() returns (changed: bool)
      modifies this`queue, this`counter
      ensures Window() == W.Pass(old(Window()))
      ensures changed <==> !W.Settled(old(Window()))
    {
      ghost var w := Window();
      hide W.Turn, W.Idle;
      changed := false;
      var k := 0;
      while k < R.SetCount
        invariant k <= R.SetCount && W.Onward(Window(), k) == W.Pass(w)
        invariant changed <==> !IdleBelow(w, k)
        invariant !changed ==> Window() == w
      {
        ghost var w' := Window();
        var hit := OptimiseRuleInQueue(k);
        NotIdle(w, k);
        if hit {
          changed := true;
        } else {
          W.TurnIdle(w', k);
        }
        k := k + 1;
      }
      AllIdle(w);
    }

    /** Applies rule sets in turn, again and again, until none matches anywhere. Asks
        that the passes end; KeyholeRunaway says exactly when they do. */
    method Optimise()
      requires W.Ends(Window())
      modifies this`queue, this`counter
      ensures Window() == W.Rest(old(Window())) && W.Settled(Window()) && K.NothingCalls(queue)
    {
      hide W.Pass, W.Passes, W.Settled, W.Ends, W.Rest, K.NothingCalls;
      ghost var w, n: nat := Window(), 0;
      ghost var last := LastPass(w);
      var changed := true;
      while changed
        invariant Window() == W.Passes(w, n) && n <= last + 1
        invariant n == last + 1 ==> !changed
        invariant !changed ==> W.Settled(Window())
        decreases last + 1 - n
      {
        changed := OptimiseOnce();
        NextPass(w, n);
        n := n + 1;
      }
      W.RestIs(w, n);
      SettledExact(Window());
    }

    /** Moves the oldest items out until the window is short enough, adds one item
        and optimises. */
    method QueueInstruction(item: Item)
      requires Valid() && W.Ends(Presented(Run(given), item))
      modifies this
      ensures Valid() && given == old(given) + [Add(item)]
      ensures W.Settled(Window()) && K.NothingCalls(queue)
    {
      hide W.Ends, W.Rest, W.Settled, Run, Fed, Shift, K.NothingCalls;
      ghost var p := Run(given);
      while |queue| >= TargetSize
        invariant Shift(Progress(emitted, queue, counter)) == Shift(p)
        invariant given == old(given)
      {
        ShiftOnce(emitted, queue, counter);
        emitted, queue := emitted + [queue[0]], queue[1..];
      }
      ShiftDone(emitted, queue, counter);
      queue, given := queue + [item], given + [Add(item)];
      Optimise();
      RunOn(old(given), Add(item));
      FedAdd(p, item);
    }

    /** Moves the whole window out. */
    method Flush()
      modifies this`queue, this`emitted
      ensures queue == [] && emitted == old(emitted + queue)
    {
      emitted, queue := emitted + queue, [];
    }

    /** A procedure starts: the window is moved out first. */
    method Procedure(name: string)
      requires Valid()
      modifies this
      ensures Valid() && queue == [] && given == old(given) + [Start(name)]
    {
      Flush();
      emitted, given := emitted + [Label(Entry(name))], given + [Start(name)];
      RunOn(old(given), Start(name));
    }
  }

  lemma RunOn(commands: seq<Command>, command: Command)
    ensures Run(commands + [command]) == Fed(Run(commands), command)
  {
    assert (commands + [command])[..|commands|] == commands;
  }

  lemma FedAdd(p: Progress, item: Item)
    ensures Presented(p, item) == R.Rewritten(Shift(p).queue + [item], p.counter)
    ensures var w := W.Rest(Presented(p, item)); Fed(p, Add(item)) == Progress(Shift(p).emitted, w.queue, w.counter)
  {
  }

  lemma ShiftOnce(emitted: Code, queue: Code, counter: nat)
    requires |queue| >= TargetSize
    ensures Shift(Progress(emitted, queue, counter)) == Shift(Progress(emitted + [queue[0]], queue[1..], counter))
  {
  }

  lemma ShiftDone(emitted: Code, queue: Code, counter: nat)
    requires |queue| < TargetSize
    ensures Shift(Progress(emitted, queue, counter)) == Progress(emitted, queue, counter)
  {
  }

  lemma TurnAt(w: W.Window, k: nat)
    requires k < R.SetCount
    ensures forall i: nat :: i <= W.FirstAt(w, k, 0) && i < |w.queue| && R.Apply(w.queue, w.counter, k, i).Present? ==>
      i == W.FirstAt(w, k, 0) && W.Turn(w, k) == R.Apply(w.queue, w.counter, k, i).value
    ensures W.FirstAt(w, k, 0) < |w.queue| ==> R.Apply(w.queue, w.counter, k, W.FirstAt(w, k, 0)).Present?
  {
    hide R.Apply;
  }

  /** No rule set below k applies. */
  predicate IdleBelow(w: W.Window, k: nat) {
    forall k': nat :: k' < k && k' < R.SetCount ==> W.Idle(w, k')
  }

  lemma NotIdle(w: W.Window, k: nat)
    requires k < R.SetCount
    ensures IdleBelow(w, k + 1) <==> IdleBelow(w, k) && W.Idle(w, k)
  {
  }

  lemma AllIdle(w: W.Window)
    ensures IdleBelow(w, R.SetCount) <==> W.Settled(w)
  {
    hide R.Apply;
    if IdleBelow(w, R.SetCount) {
      forall k: nat, at: nat | k < R.SetCount && at < |w.queue|
        ensures R.Apply(w.queue, w.counter, k, at).Absent?
      {
        assert W.Idle(w, k);
      }
    }
  }

  lemma LastPass(w: W.Window) returns (last: nat)
    requires W.Ends(w)
    ensures W.Settled(W.Passes(w, last)) && W.Passes(w, 0) == w
  {
    last :| W.Settled(W.Passes(w, last));
  }

  lemma NextPass(w: W.Window, n: nat)
    ensures W.Passes(w, n + 1) == W.Pass(W.Passes(w, n))
    ensures W.Settled(W.Passes(w, n)) ==> W.Passes(w, n + 1) == W.Passes(w, n)
  {
    hide W.Pass, W.Settled;
    var x := W.Passes(w, n);
    W.PassesAdd(w, n, 1);
    assert W.Passes(x, 1) == W.Passes(W.Pass(x), 0) == W.Pass(x);
    if W.Settled(x) { W.SettledStays(x, 1); }
  }

  lemma HaltsAt(commands: seq<Command>, k: nat)
    requires Halts(commands) && k < |commands|
    ensures commands[k].Add? ==> W.Ends(Presented(Run(commands[..k]), commands[k].item))
    ensures commands[..k + 1] == commands[..k] + [commands[k]]
  {
    hide Run, Presented, W.Ends;
  }

  /** The whole stream of a source file through the window. It ends exactly if no item
      makes its window a runaway, and keeps the meaning if every match is right. */
  method Assemble(commands: seq<Command>) returns (output: Code)
    requires Halts(commands)
    ensures output == Output(Run(commands)) && K.NothingCalls(Run(commands).queue)
    ensures S.Tidy(Given(commands), 0) && AllRight(commands) ==>
      forall sem :: M.SameMeaning(sem, Given(commands), output)
  {
    hide Halts, Presented, W.Ends, W.Settled, Run, S.Tidy, AllRight, M.SameMeaning, K.NothingCalls;
    var opt := new Optimiser();
    var k := 0;
    while k < |commands|
      invariant k <= |commands| && opt.Valid() && opt.given == commands[..k]
      invariant fresh(opt)
    {
      HaltsAt(commands, k);
      match commands[k] {
        case Start(name) => opt.Procedure(name);
        case Add(item) => opt.QueueInstruction(item);
      }
      k := k + 1;
    }
    assert commands[..k] == commands;
    opt.Flush();
    output := opt.emitted;
    RunStanding(commands);
    if S.Tidy(Given(commands), 0) && AllRight(commands) {
      forall sem { RunKeepsMeaning(sem, commands); }
    }
  }
}
