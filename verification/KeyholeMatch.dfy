/** When a rule set matches, said without the matcher. */
module KeyholeMatch {
  import opened Assembly
  import R = KeyholeRules
  import E = KeyholeEffect

  predicate Jumps(item: Item) { item.Instr? && item.op == Br && item.a.Id? && item.b == None && item.c == None }

  /** A brt or brf on a register. */
  predicate Tests(item: Item) {
    item.Instr? && (item.op == Brt || item.op == Brf) && item.a.Id? && item.b.Reg? && item.c == None
  }

  predicate Forks(item: Item) { item.Instr? && item.op == Brtf && item.a.Id? && item.b.Id? && item.c.Reg? }

  /** The two branches that rule set k is about. */
  predicate Partners(k: nat, first: Item, second: Item) {
    if k == 4 then Jumps(first) && Tests(second) && second.op == Brt
    else if k == 5 then Jumps(first) && Tests(second) && second.op == Brf
    else if k == 6 then Jumps(first) && Forks(second)
    else
      && 7 <= k < R.SetCount && Tests(first) && Tests(second) && first.b.number == second.b.number
      && first.op == (if k == 7 || k == 9 then Brt else Brf)
      && second.op == (if k == 7 || k == 10 then Brt else Brf)
  }

  /** The rule set for two branches. */
  function SetFor(first: Item, second: Item): (k: nat)
    requires Tests(first) && Tests(second) && first.b.number == second.b.number
    ensures 7 <= k < R.SetCount && Partners(k, first, second)
  {
    if first.op == second.op then if first.op == Brt then 7 else 8
    else if first.op == Brt then 9 else 10
  }

  /** The branch at i goes to the label at j, which stands before the second branch. */
  predicate Meets(q: Code, k: nat, i: nat, j: nat) {
    && i < j && j + 1 < |q| && q[i].Instr? && q[i].a.Id?
    && q[j] == Label(q[i].a.name) && (forall g :: i < g < j ==> q[g] != q[j])
    && Partners(k, q[i], q[j + 1])
  }

  /** The operand map when the first branch and the label have been matched. */
  function Halfway(item: Item): R.OpMap
    requires item.Instr? && item.a.Id?
  {
    R.OpMap(if item.b.Reg? then map[0 := item.b] else map[], map[0 := item.a.name], map[0 := item.a.name])
  }

  lemma FirstMaps(k: nat, first: Item, second: Item)
    requires 4 <= k < R.SetCount && Partners(k, first, second)
    ensures first.Instr? && first.a.Id?
    ensures R.Unmapped.Map(first, R.Set(k)[0].input) == R.Present(Halfway(first).(lab := map[]))
    ensures forall item :: Halfway(first).(lab := map[]).CanMap(item, R.L(0)) <==> item == Label(first.a.name)
    ensures Halfway(first).(lab := map[]).Mapped(Label(first.a.name), R.L(0)) == Halfway(first)
  {
  }

  lemma SecondMaps(k: nat, first: Item, second: Item)
    requires 4 <= k < R.SetCount && Partners(k, first, second)
    ensures first.Instr? && first.a.Id? && Halfway(first).CanMap(second, R.Set(k)[2].input)
  {
  }

  lemma {:induction false} ScanFrom(q: Code, k: nat, j: nat, m: R.OpMap, rules: R.RuleSet)
    requires k <= j < |q| && rules != [] && rules[0].flag == R.AnyGap && R.Scan(q, j, m, rules).Present?
    requires forall g :: k <= g < j ==> !m.CanMap(q[g], rules[0].input)
    ensures R.Scan(q, k, m, rules).Present?
    decreases j - k
  {
    if k < j { ScanFrom(q, k + 1, j, m, rules); }
  }

  lemma ScanPair(q: Code, j: nat, m: R.OpMap, m1: R.OpMap, mark: R.Rule, second: R.Rule)
    requires j + 1 < |q| && m.CanMap(q[j], mark.input) && m1 == m.Mapped(q[j], mark.input)
    requires m1.CanMap(q[j + 1], second.input)
    ensures R.Scan(q, j, m, [mark, second]).Present?
  {
    assert [mark, second][1..] == [second] && [second][1..] == [];
    assert R.Scan(q, j + 1, m1, [second]).Present?;
  }

  /** Such branches are matched. */
  lemma MeetsApplies(q: Code, counter: nat, k: nat, i: nat, j: nat)
    requires 4 <= k < R.SetCount && Meets(q, k, i, j)
    ensures R.Apply(q, counter, k, i).Present?
  {
    E.ThreadSet(k);
    var rules := R.Set(k);
    FirstMaps(k, q[i], q[j + 1]);
    SecondMaps(k, q[i], q[j + 1]);
    hide R.Set, Partners, R.OpMap.CanMap, R.OpMap.Map, R.OpMap.Mapped;
    var m := Halfway(q[i]).(lab := map[]);
    assert rules[1..] == [rules[1], rules[2]];
    ScanPair(q, j, m, Halfway(q[i]), rules[1], rules[2]);
    ScanFrom(q, i + 1, j, m, rules[1..]);
    hide R.Scan;
  }

  /** And nothing else is. */
  lemma AppliesMeets(q: Code, counter: nat, k: nat, i: nat, j: nat, s: Item, t: Item, added: Code)
    requires 4 <= k && E.ThreadAt(q, counter, k, i, j, s, t, added)
    ensures q[i].a.Id? && q[j] == Label(q[i].a.name) && Partners(k, q[i], q[j + 1])
  {
  }

  /* ---- When any rule set applies ---- */

  lemma {:induction false} ScanTo(q: Code, k: nat, j: nat, m: R.OpMap, rule: R.Rule)
    requires k <= j < |q| && m.CanMap(q[j], rule.input)
    requires forall g :: k <= g < j ==> !R.Blocks(m, q[g], rule.flag)
    ensures R.Scan(q, k, m, [rule]).Present?
    decreases j - k
  {
    assert [rule][1..] == [];
    if !m.CanMap(q[k], rule.input) { ScanTo(q, k + 1, j, m, rule); }
  }

  /** Two swaps that fit are matched across every quiet gap. */
  lemma PairApplies(q: Code, counter: nat, k: nat, i: nat, j: nat)
    requires k < 2 && E.PairAt(q, i, j, k == 1)
    ensures R.Apply(q, counter, k, i).Present?
  {
    var rules := R.Set(k);
    var m := R.OpMap(map[0 := q[i].a, 1 := q[i].b], map[], map[]);
    assert R.Unmapped.Map(q[i], rules[0].input) == R.Present(m);
    assert rules[1..] == [rules[1]] && m.CanMap(q[j], rules[1].input);
    forall g | i < g < j ensures !R.Blocks(m, q[g], R.NoHazard) {
      assert !R.Hazardous(q[g]) && E.Avoids(q[g], q[i].a.number) && E.Avoids(q[g], q[i].b.number);
    }
    ScanTo(q, i + 1, j, m, rules[1]);
    hide R.Scan;
  }

  /** A concatenation onto its own first operand's number is matched. */
  lemma ConcatApplies(q: Code, counter: nat, k: nat, i: nat)
    requires 2 <= k < 4 && i < |q| && E.SelfConcat(q[i], if k == 2 then Sconcat else Concat)
    ensures R.Apply(q, counter, k, i).Present?
  {
    assert R.Set(k)[1..] == [];
  }

  /** What rule set k looks for at a position, said without the rule table. */
  ghost predicate Calls(q: Code, k: nat, i: nat)
    requires k < R.SetCount && i < |q|
  {
    if k < 2 then var reversed := k == 1; exists j :: E.PairAt(q, i, j, reversed)
    else if k < 4 then E.SelfConcat(q[i], if k == 2 then Sconcat else Concat)
    else exists j :: Meets(q, k, i, j)
  }

  /** A rule set applies at a position if and only if what it looks for is there. */
  lemma AppliesExact(q: Code, counter: nat, k: nat, i: nat)
    requires k < R.SetCount && i < |q|
    ensures R.Apply(q, counter, k, i).Present? <==> Calls(q, k, i)
  {
    hide R.Apply, E.PairAt, E.SelfConcat, Meets;
    if R.Apply(q, counter, k, i).Present? {
      if k < 2 {
        var j := E.SwapEffect(q, counter, k, i);
      } else if k < 4 {
        E.ShortenEffect(q, counter, k, i);
      } else {
        var j := AppliesAt(q, counter, k, i);
        assert Meets(q, k, i, j);
      }
    } else if Calls(q, k, i) {
      if k < 2 {
        var j: nat :| E.PairAt(q, i, j, k == 1);
        PairApplies(q, counter, k, i, j);
      } else if k < 4 {
        ConcatApplies(q, counter, k, i);
      } else {
        var j: nat :| Meets(q, k, i, j);
        MeetsApplies(q, counter, k, i, j);
      }
      assert false;
    }
  }

  /** Nothing is left that a rule set looks for. */
  ghost predicate NothingCalls(q: Code) {
    forall k: nat, i: nat :: k < R.SetCount && i < |q| ==> !Calls(q, k, i)
  }

  lemma AppliesAt(q: Code, counter: nat, k: nat, i: nat) returns (j: nat)
    requires 4 <= k < R.SetCount && i < |q| && R.Apply(q, counter, k, i).Present?
    ensures Meets(q, k, i, j)
  {
    hide R.Apply, Partners;
    var s, t, added;
    j, s, t, added := E.ThreadEffect(q, counter, k, i);
    AppliesMeets(q, counter, k, i, j, s, t, added);
  }

  /* ---- A match looks at its own items only ---- */

  /** The items from k up to the end are those from k' on. */
  predicate Alike(q: Code, k: nat, q': Code, k': nat, end: nat) {
    && k <= end <= |q| && k' + (end - k) <= |q'|
    && q[k..end] == q'[k'..k' + (end - k)]
  }

  lemma AlikeTail(q: Code, k: nat, q': Code, k': nat, end: nat)
    requires Alike(q, k, q', k', end) && k < end
    ensures q[k] == q'[k'] && Alike(q, k + 1, q', k' + 1, end)
  {
    assert q[k] == q[k..end][0] && q'[k'] == q'[k'..k' + (end - k)][0];
    assert q[k + 1..end] == q[k..end][1..];
    assert q'[k' + 1..k' + (end - k)] == q'[k'..k' + (end - k)][1..];
  }

  /** The rest of a match comes out alike where the items are alike. */
  lemma {:induction false} ScanAlike(q: Code, k: nat, q': Code, k': nat, m: R.OpMap, rules: R.RuleSet, end: nat)
    requires Alike(q, k, q', k', end)
    requires R.Scan(q, k, m, rules).Present?
    requires var hits := R.Scan(q, k, m, rules).value.hits; forall h :: 0 <= h < |hits| ==> hits[h].at < end
    ensures R.Scan(q', k', m, rules).Present?
    decreases end - k
  {
    if rules != [] {
      if k < end {
        AlikeTail(q, k, q', k', end);
        hide Alike, R.OpMap.CanMap, R.OpMap.Mapped, R.Blocks;
        if m.CanMap(q[k], rules[0].input) {
          var rest := R.Scan(q, k + 1, m.Mapped(q[k], rules[0].input), rules[1..]);
          var hits := R.Scan(q, k, m, rules).value.hits;
          assert forall h :: 0 <= h < |rest.value.hits| ==> rest.value.hits[h] == hits[h + 1];
          ScanAlike(q, k + 1, q', k' + 1, m.Mapped(q[k], rules[0].input), rules[1..], end);
        } else {
          ScanAlike(q, k + 1, q', k' + 1, m, rules, end);
        }
      } else {
        NoScan(q, k, m, rules);
      }
    }
  }

  /** A match of further rules has hits from here on. */
  lemma {:induction false} NoScan(q: Code, k: nat, m: R.OpMap, rules: R.RuleSet)
    requires k <= |q| && rules != [] && R.Scan(q, k, m, rules).Present?
    ensures var hits := R.Scan(q, k, m, rules).value.hits; hits != [] && hits[0].at >= k
    decreases |q| - k
  {
    if !m.CanMap(q[k], rules[0].input) { NoScan(q, k + 1, m, rules); }
  }

  /** A rule set that matches here also matches where the items up to its last hit
      are the same. */
  lemma MatchAlike(q: Code, counter: nat, i: nat, q': Code, counter': nat, i': nat, k: nat, end: nat)
    requires k < R.SetCount && i < end && Alike(q, i, q', i', end)
    requires R.Apply(q, counter, k, i).Present? && E.LastHit(q, k, i) < end
    ensures R.Apply(q', counter', k, i').Present?
  {
    R.SetsWellFormed(k);
    hide R.Set, R.OpMap.Map, R.Write;
    var rules := R.Set(k);
    AlikeTail(q, i, q', i', end);
    hide Alike;
    ScanPart(q, i, k, end);
    ScanAlike(q, i + 1, q', i' + 1, R.Unmapped.Map(q[i], rules[0].input).value, rules[1..], end);
  }

  lemma ScanPart(q: Code, i: nat, k: nat, end: nat)
    requires k < R.SetCount && i < |q|
    requires R.Set(k) != [] && R.MatchAt(q, i, R.Set(k)).Present? && E.LastHit(q, k, i) < end
    ensures R.Unmapped.Map(q[i], R.Set(k)[0].input).Present?
    ensures var scan := R.Scan(q, i + 1, R.Unmapped.Map(q[i], R.Set(k)[0].input).value, R.Set(k)[1..]);
      scan.Present? && forall h :: 0 <= h < |scan.value.hits| ==> scan.value.hits[h].at < end
  {
    R.SetsWellFormed(k);
    hide R.Set, R.OpMap.Map;
    var rules := R.Set(k);
    R.MatchHits(q, i, rules);
    var rest := R.Scan(q, i + 1, R.Unmapped.Map(q[i], rules[0].input).value, rules[1..]).value.hits;
    var hits := R.MatchAt(q, i, rules).value.hits;
    assert forall h :: 0 <= h < |rest| ==> rest[h] == hits[h + 1];
  }
}
