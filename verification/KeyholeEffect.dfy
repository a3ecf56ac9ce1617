/** What each rule set does to the queue, written without the rule table. */
module KeyholeEffect {
  import opened Assembly
  import opened KeyholeRules

  /** Where the last rule of a matching rule set matched. */
  function LastHit(q: Code, k: nat, i: nat): nat
    requires k < SetCount && i < |q|
  {
    SetsWellFormed(k);
    var m := MatchAt(q, i, Set(k));
    if m.Present? && m.value.hits != [] then m.value.hits[|m.value.hits| - 1].at else i
  }

  /* ---- Swap pairs ---- */

  function WithoutPair(q: Code, i: nat, j: nat): Code
    requires i < j < |q|
  {
    q[..i] + q[i + 1..j] + q[j + 1..]
  }

  predicate SwapOf(item: Item, x: Operand, y: Operand) {
    item == Instr(Swap, x, y, None) && x.Reg? && y.Reg?
  }

  predicate SameNumber(x: Operand, y: Operand) { x.Reg? && y.Reg? && x.number == y.number }

  /** The gap: instructions without label or procedure operands, none of whose
      operands is the local register numbered as x or y. */
  predicate QuietGap(q: Code, i: nat, j: nat, x: Operand, y: Operand)
    requires i < j < |q| && x.Reg? && y.Reg?
  {
    forall g :: i < g < j ==> !Hazardous(q[g]) && Avoids(q[g], x.number) && Avoids(q[g], y.number)
  }

  predicate Avoids(item: Item, n: nat) {
    item.Instr? ==> item.a != Reg(Local, n) && item.b != Reg(Local, n) && item.c != Reg(Local, n)
  }

  predicate PairAt(q: Code, i: nat, j: nat, reversed: bool) {
    && i < j < |q| && q[i].Instr? && q[j].Instr?
    && SwapOf(q[i], q[i].a, q[i].b) && SwapOf(q[j], q[j].a, q[j].b)
    && (if reversed then SameNumber(q[i].a, q[j].b) && SameNumber(q[i].b, q[j].a)
        else SameNumber(q[i].a, q[j].a) && SameNumber(q[i].b, q[j].b))
    && QuietGap(q, i, j, q[i].a, q[i].b)
  }

  lemma {:induction false} ScanSwap(q: Code, i: nat, k: nat, m: OpMap, rule: Rule)
    requires i < k <= |q|
    requires Scan(q, k, m, [rule]).Present? && rule.flag == NoHazard
    ensures exists j :: k <= j < |q| && SecondHit(q, k, j, m, rule)
    decreases |q| - k
  {
    if m.CanMap(q[k], rule.input) {
      assert [rule][1..] == [];
      assert [Hit(k, rule)] + [] == [Hit(k, rule)];
      assert SecondHit(q, k, k, m, rule);
    } else {
      ScanSwap(q, i, k + 1, m, rule);
      var j :| k + 1 <= j < |q| && SecondHit(q, k + 1, j, m, rule);
      assert SecondHit(q, k, j, m, rule);
    }
  }

  predicate SecondHit(q: Code, k: nat, j: nat, m: OpMap, rule: Rule)
    requires k <= j < |q|
  {
    && m.CanMap(q[j], rule.input)
    && (forall g :: k <= g < j ==> !m.CanMap(q[g], rule.input) && !Blocks(m, q[g], NoHazard))
    && Scan(q, k, m, [rule]) == Present(Match(m.Mapped(q[j], rule.input), [Hit(j, rule)]))
  }

  lemma PairRemoved(o: Output, i: nat, j: nat, first: Rule, second: Rule)
    requires i < j < |o.queue|
    requires first.out == Nothing && first.out2 == Nothing && second.out == Nothing && second.out2 == Nothing
    ensures Write(o, [Hit(i, first), Hit(j, second)]) == Output(WithoutPair(o.queue, i, j), o.filler)
  {
    hide Write, WriteHit, WithoutPair;
    WriteTwo(o, Hit(i, first), Hit(j, second));
    DropHit(o, Hit(j, second));
    DropHit(WriteHit(o, Hit(j, second)), Hit(i, first));
    CutBoth(o.queue, i, j);
  }

  lemma DropHit(o: Output, hit: Hit)
    requires hit.at < |o.queue| && hit.rule.out == Nothing && hit.rule.out2 == Nothing
    ensures WellFormed(hit.rule)
    ensures WriteHit(o, hit) == Output(o.queue[..hit.at] + o.queue[hit.at + 1..], o.filler)
  {
  }

  lemma CutBoth(q: Code, i: nat, j: nat)
    requires i < j < |q|
    ensures var rest := q[..j] + q[j + 1..]; rest[..i] + rest[i + 1..] == WithoutPair(q, i, j)
  {
    var rest := q[..j] + q[j + 1..];
    assert rest[..i] == q[..i] && rest[i + 1..] == q[i + 1..j] + q[j + 1..];
  }

  lemma WriteTwo(o: Output, first: Hit, second: Hit)
    requires first.at < second.at < |o.queue| && WellFormed(first.rule) && WellFormed(second.rule)
    ensures Write(o, [first, second]) == WriteHit(WriteHit(o, second), first)
  {
    hide WriteHit;
    assert [first, second][..1] == [first];
    var o1 := WriteHit(o, second);
    assert Write(o, [first, second]) == Write(o1, [first]);
    assert [first][..0] == [];
    assert Write(o1, [first]) == Write(WriteHit(o1, first), []);
  }

  /** Rule sets 0 and 1 remove two swaps of the same register numbers across a
      quiet gap, the second one being the first that fits, and touch nothing else. */
  lemma SwapEffect(q: Code, counter: nat, k: nat, i: nat) returns (j: nat)
    requires k < 2 && i < |q| && Apply(q, counter, k, i).Present?
    ensures PairAt(q, i, j, k == 1) && LastHit(q, k, i) == j
    ensures var reversed := k == 1; forall g :: i < g < j ==> !PairAt(q, i, g, reversed)
    ensures Apply(q, counter, k, i) == Present(Rewritten(WithoutPair(q, i, j), counter))
  {
    var rules := Set(k);
    var m := Unmapped.Map(q[i], rules[0].input).value;
    assert rules[1..] == [rules[1]];
    ScanSwap(q, i, i + 1, m, rules[1]);
    j :| i + 1 <= j < |q| && SecondHit(q, i + 1, j, m, rules[1]);
    assert 0 in m.reg && m.reg[0] == q[i].a && 1 in m.reg && m.reg[1] == q[i].b;
    forall g | i < g < j
      ensures !Hazardous(q[g]) && Avoids(q[g], q[i].a.number) && Avoids(q[g], q[i].b.number)
    {
      assert !Blocks(m, q[g], NoHazard);
    }
    var reversed := k == 1;
    forall g | i < g < j ensures !PairAt(q, i, g, reversed) {
      assert !m.CanMap(q[g], rules[1].input);
    }
    assert PairAt(q, i, j, k == 1);
    var mm := m.Mapped(q[j], rules[1].input);
    PairRemoved(Output(q, Filler(mm, counter)), i, j, rules[0], rules[1]);
    assert [Hit(i, rules[0])] + [Hit(j, rules[1])] == [Hit(i, rules[0]), Hit(j, rules[1])];
  }

  /* ---- Concatenation to append ---- */

  predicate SelfConcat(item: Item, long: Op) {
    item.Instr? && item.op == long && SameNumber(item.a, item.b) && item.c.Reg?
  }

  /** Rule sets 2 and 3 replace one instruction by the two-operand form. */
  lemma ShortenEffect(q: Code, counter: nat, k: nat, i: nat)
    requires 2 <= k < 4 && i < |q| && Apply(q, counter, k, i).Present?
    ensures SelfConcat(q[i], if k == 2 then Sconcat else Concat)
    ensures Apply(q, counter, k, i) == Present(Rewritten(
      q[i := Instr(if k == 2 then Sappend else Append, q[i].a, q[i].c, None)], counter))
    ensures LastHit(q, k, i) == i
  {
    var rules := Set(k);
    var m := Unmapped.Map(q[i], rules[0].input).value;
    assert rules[1..] == [];
    var hits := [Hit(i, rules[0])];
    assert hits + [] == hits;
    assert hits[..0] == [];
    var o := Output(q, Filler(m, counter));
    assert Write(o, hits) == Write(WriteHit(o, hits[0]), []);
  }

  /* ---- Branch threading ---- */

  function Threaded(q: Code, i: nat, j: nat, s: Item, t: Item, added: Code): Code
    requires i < j && j + 1 < |q|
  {
    q[..i] + [s] + q[i + 1..j + 1] + [t] + added + q[j + 2..]
  }

  predicate ThreadHits(q: Code, i: nat, j: nat, rules: RuleSet)
    requires i < |q| && |rules| == 3
  {
    && i < j && j + 1 < |q|
    && Unmapped.Map(q[i], rules[0].input).Present?
    && var m := Unmapped.Map(q[i], rules[0].input).value;
    && m.CanMap(q[j], L(0)) && (forall g :: i < g < j ==> !m.CanMap(q[g], L(0)))
    && var m1 := m.Mapped(q[j], L(0));
    && m1.CanMap(q[j + 1], rules[2].input)
    && MatchAt(q, i, rules) == Present(Match(m1.Mapped(q[j + 1], rules[2].input),
         [Hit(i, rules[0]), Hit(j, rules[1]), Hit(j + 1, rules[2])]))
  }

  lemma {:induction false} ScanLabel(q: Code, k: nat, m: OpMap, rules: RuleSet) returns (j: nat)
    requires k <= |q| && |rules| == 2 && rules[0].flag == AnyGap && rules[0].input == L(0)
    requires rules[1].flag == NoGap
    requires Scan(q, k, m, rules).Present?
    ensures k <= j && j + 1 < |q| && m.CanMap(q[j], L(0))
    ensures forall g :: k <= g < j ==> !m.CanMap(q[g], L(0))
    ensures var m1 := m.Mapped(q[j], L(0));
      && m1.CanMap(q[j + 1], rules[1].input)
      && Scan(q, k, m, rules) == Present(Match(m1.Mapped(q[j + 1], rules[1].input),
           [Hit(j, rules[0]), Hit(j + 1, rules[1])]))
    decreases |q| - k
  {
    if m.CanMap(q[k], L(0)) {
      j := k;
      var m1 := m.Mapped(q[j], L(0));
      assert rules[1..] == [rules[1]];
      assert Scan(q, k + 1, m1, [rules[1]]).Present?;
      assert [rules[1]][1..] == [];
      assert m1.CanMap(q[j + 1], rules[1].input);
      var m2 := m1.Mapped(q[j + 1], rules[1].input);
      assert Scan(q, k + 2, m2, []) == Present(Match(m2, []));
      assert Scan(q, k + 1, m1, [rules[1]]) == Present(Match(m2, [Hit(j + 1, rules[1])] + []));
      assert [Hit(j + 1, rules[1])] + [] == [Hit(j + 1, rules[1])];
      assert [Hit(j, rules[0])] + [Hit(j + 1, rules[1])] == [Hit(j, rules[0]), Hit(j + 1, rules[1])];
    } else {
      j := ScanLabel(q, k + 1, m, rules);
    }
  }

  lemma ThreadMatch(q: Code, i: nat, first: Pattern, out: Pattern, second: Pattern, added: Pattern)
      returns (j: nat)
    requires i < |q| && MatchAt(q, i, Thread(first, out, second, added)).Present?
    ensures ThreadHits(q, i, j, Thread(first, out, second, added))
  {
    var rules := Thread(first, out, second, added);
    var m := Unmapped.Map(q[i], rules[0].input).value;
    assert rules[1..] == [rules[1], rules[2]];
    j := ScanLabel(q, i + 1, m, [rules[1], rules[2]]);
    assert [Hit(i, rules[0])] + [Hit(j, rules[1]), Hit(j + 1, rules[2])]
        == [Hit(i, rules[0]), Hit(j, rules[1]), Hit(j + 1, rules[2])];
  }

  function Extra(f: Filler, added: Pattern): (Code, Filler) {
    if added == Nothing then ([], f) else var (x, g) := f.Make(added); ([x], g)
  }

  lemma WrittenBack(q: Code, i: nat, j: nat, s: Item, l: Item, t: Item, x: Code)
    requires i < j && j + 1 < |q|
    ensures (q[..j + 1] + [t] + x + q[j + 2..])[j := l][i := s] == Threaded(q[j := l], i, j, s, t, x)
  {
    assert q[j := l] == q[..j] + [l] + q[j + 1..];
    assert q[j := l][i + 1..j + 1] == q[i + 1..j] + [l];
  }

  lemma WriteLast(o: Output, j: nat, r: Rule)
    requires j + 1 < |o.queue| && r.out != Nothing
    ensures
      var (t, f1) := o.filler.Make(r.out);
      var (x, f2) := Extra(f1, r.out2);
      WriteHit(o, Hit(j + 1, r)) == Output(o.queue[..j + 1] + [t] + x + o.queue[j + 2..], f2)
  {
    var (t, f1) := o.filler.Make(r.out);
    var (x, f2) := Extra(f1, r.out2);
    var q1 := o.queue[j + 1 := t];
    assert q1[..j + 2] == o.queue[..j + 1] + [t] && q1[j + 2..] == o.queue[j + 2..];
    assert q1 == q1[..j + 2] + q1[j + 2..];
  }

  /** The last hit is written first. */
  lemma WriteStep(o: Output, hits: seq<Hit>, last: Hit)
    requires last.at < |o.queue| && WellFormed(last.rule) && HitsIn(hits + [last], |o.queue|)
    ensures HitsIn(hits, |WriteHit(o, last).queue|)
    ensures Write(o, hits + [last]) == Write(WriteHit(o, last), hits)
  {
    var all := hits + [last];
    assert all[|all| - 1] == last && all[..|all| - 1] == hits;
    assert forall h :: 0 <= h < |hits| ==> all[h] == hits[h];
    hide WriteHit;
  }

  lemma WriteThree(o: Output, a: Hit, b: Hit, c: Hit)
    requires a.at < b.at < c.at < |o.queue|
    requires WellFormed(a.rule) && WellFormed(b.rule) && WellFormed(c.rule)
    requires HitsIn([a, b, c], |o.queue|)
    ensures b.at < |WriteHit(o, c).queue| && a.at < |WriteHit(WriteHit(o, c), b).queue|
    ensures Write(o, [a, b, c]) == WriteHit(WriteHit(WriteHit(o, c), b), a)
  {
    hide WriteHit, HitsIn, Write;
    assert [a, b] + [c] == [a, b, c] && [a] + [b] == [a, b] && [] + [a] == [a];
    WriteStep(o, [a, b], c);
    WriteStep(WriteHit(o, c), [a], b);
    WriteStep(WriteHit(WriteHit(o, c), b), [], a);
    WriteNone(WriteHit(WriteHit(WriteHit(o, c), b), a));
  }

  lemma WriteNone(o: Output)
    ensures HitsIn([], |o.queue|) && Write(o, []) == o
  {
  }

  /** The three outputs in the order they are made: second branch (and the label
      after it), the label in between, the first branch. */
  lemma ThreadWrite(q: Code, f: Filler, i: nat, j: nat, rules: RuleSet)
    requires i < j && j + 1 < |q| && |rules| == 3
    requires rules[0].out != Nothing && rules[0].out2 == Nothing
    requires rules[1].out == L(0) && rules[1].out2 == Nothing && rules[2].out != Nothing
    requires HitsIn([Hit(i, rules[0]), Hit(j, rules[1]), Hit(j + 1, rules[2])], |q|)
    ensures
      var (t, f1) := f.Make(rules[2].out);
      var (x, f2) := Extra(f1, rules[2].out2);
      var (l, f3) := f2.Make(L(0));
      var (s, f4) := f3.Make(rules[0].out);
      Write(Output(q, f), [Hit(i, rules[0]), Hit(j, rules[1]), Hit(j + 1, rules[2])])
        == Output(Threaded(q[j := l], i, j, s, t, x), f4)
  {
    hide Write, Threaded, Filler.Make, Extra;
    var (t, f1) := f.Make(rules[2].out);
    var (x, f2) := Extra(f1, rules[2].out2);
    var (l, f3) := f2.Make(L(0));
    var (s, f4) := f3.Make(rules[0].out);
    var o := Output(q, f);
    WriteThree(o, Hit(i, rules[0]), Hit(j, rules[1]), Hit(j + 1, rules[2]));
    WriteLast(o, j, rules[2]);
    WrittenBack(q, i, j, s, l, t, x);
  }

  function To(op: Op, name: Name, r: Operand): Item { Instr(op, Id(name), r, None) }

  /** The branch pair (s before, t behind the label x) and what replaces it:
      by rule set, with `newName` the label placed behind t when one is needed. */
  predicate BranchRule(k: nat, s: Item, x: Name, t: Item, s': Item, t': Item, newName: Name, added: Code) {
    && s.Instr? && t.Instr? && s.a.Id? && t.a.Id?
    && if k == 4 then
      && t == To(Brt, t.a.name, t.b) && t.b.Reg?
      && s == To(Br, x, None) && s' == Instr(Brtf, t.a, Id(newName), t.b) && t' == t && added == [Label(newName)]
    else if k == 5 then
      && t == To(Brf, t.a.name, t.b) && t.b.Reg?
      && s == To(Br, x, None) && s' == Instr(Brtf, Id(newName), t.a, t.b) && t' == t && added == [Label(newName)]
    else if k == 6 then
      && t == Instr(Brtf, t.a, t.b, t.c) && t.b.Id? && t.c.Reg?
      && s == To(Br, x, None) && s' == t && t' == t && added == []
    else if k == 7 || k == 8 then
      var op := if k == 7 then Brt else Brf;
      && t == To(op, t.a.name, t.b) && SameNumber(s.b, t.b)
      && s == To(op, x, s.b) && s' == To(op, t.a.name, s.b) && t' == s' && added == []
    else if k == 9 || k == 10 then
      var op := if k == 9 then Brt else Brf;
      var other := if k == 9 then Brf else Brt;
      && s == To(op, x, s.b)
      && t == To(other, t.a.name, t.b) && SameNumber(s.b, t.b)
      && s' == To(op, newName, s.b) && t' == To(other, t.a.name, s.b) && added == [Label(newName)]
    else false
  }

  predicate ThreadAt(q: Code, counter: nat, k: nat, i: nat, j: nat, s: Item, t: Item, added: Code) {
    && i < j && j + 1 < |q| && q[j].Label? && q[i].Instr? && q[j + 1].Instr?
    && BranchRule(k, q[i], q[j].name, q[j + 1], s, t, Gen(counter), added)
  }

  function CounterAfter(counter: nat, added: Code): nat { counter + |added| }

  /** The operand map of a match that starts from an unconditional branch. */
  lemma JumpMap(q: Code, i: nat, j: nat, second: Pattern, n: nat)
    requires i < j && j + 1 < |q|
    requires Unmapped.Map(q[i], JumpTo(0)).Present?
    ensures var m := Unmapped.Map(q[i], JumpTo(0)).value;
      && q[i].Instr? && q[i].a.Id? && q[i] == To(Br, q[i].a.name, None)
      && m == OpMap(map[], map[0 := q[i].a.name], map[])
      && (m.CanMap(q[j], L(0)) ==>
            && q[j] == Label(q[i].a.name)
            && m.Mapped(q[j], L(0)) == OpMap(map[], map[0 := q[i].a.name], map[0 := q[i].a.name]))
  {
  }

  lemma IfMap(q: Code, i: nat, j: nat, op: Op)
    requires i < j && j + 1 < |q|
    requires Unmapped.Map(q[i], IfTo(op, 0)).Present?
    ensures var m := Unmapped.Map(q[i], IfTo(op, 0)).value;
      && q[i].Instr? && q[i].a.Id? && q[i].b.Reg? && q[i] == To(op, q[i].a.name, q[i].b)
      && m == OpMap(map[0 := q[i].b], map[0 := q[i].a.name], map[])
      && (m.CanMap(q[j], L(0)) ==>
            && q[j] == Label(q[i].a.name)
            && m.Mapped(q[j], L(0)) == OpMap(map[0 := q[i].b], map[0 := q[i].a.name], map[0 := q[i].a.name]))
  {
  }

  predicate Filled(q: Code, k: nat, i: nat, j: nat, m: OpMap, counter: nat,
                   s: Item, t: Item, added: Code)
    requires 4 <= k < SetCount && i < |q| && j < |q|
  {
    var (t1, f1) := Filler(m, counter).Make(Set(k)[2].out);
    var (x, f2) := Extra(f1, Set(k)[2].out2);
    var (l, f3) := f2.Make(L(0));
    var (s1, f4) := f3.Make(Set(k)[0].out);
    t1 == t && x == added && l == q[j] && s1 == s && f4.counter == counter + |added|
  }

  lemma ThreadSet(k: nat)
    requires 4 <= k < SetCount
    ensures var r := Set(k);
      && |r| == 3 && r == Thread(r[0].input, r[0].out, r[2].input, r[2].out2)
      && r[0].out != Nothing && r[0].out2 == Nothing
      && r[1].out == L(0) && r[1].out2 == Nothing && r[2].out != Nothing
  {
  }

  lemma ThreadResult(q: Code, counter: nat, k: nat, i: nat) returns (j: nat)
    requires 4 <= k < SetCount && i < |q| && Apply(q, counter, k, i).Present?
    ensures ThreadHits(q, i, j, Set(k))
    ensures forall s, t, added ::
      Filled(q, k, i, j, MatchAt(q, i, Set(k)).value.opMap, counter, s, t, added) ==>
      Apply(q, counter, k, i)
        == Present(Rewritten(Threaded(q, i, j, s, t, added), CounterAfter(counter, added)))
  {
    hide Set, Thread, MatchAt, Write, Threaded, Filler.Make, Extra;
    var r := Set(k);
    SetsWellFormed(k);
    ThreadSet(k);
    j := ThreadMatch(q, i, r[0].input, r[0].out, r[2].input, r[2].out2);
    var m := MatchAt(q, i, r).value.opMap;
    MatchHits(q, i, r);
    ThreadWrite(q, Filler(m, counter), i, j, r);
    assert q[j := q[j]] == q;
  }

  lemma ThreadLast(q: Code, k: nat, i: nat, j: nat)
    requires 4 <= k < SetCount && i < |q| && ThreadHits(q, i, j, Set(k))
    ensures LastHit(q, k, i) == j + 1
  {
    hide MatchAt, Set;
  }

  lemma JumpFilled(q: Code, counter: nat, k: nat, i: nat, j: nat) returns (s: Item, t: Item, added: Code)
    requires 4 <= k <= 6 && i < |q| && ThreadHits(q, i, j, Set(k))
    ensures ThreadAt(q, counter, k, i, j, s, t, added)
    ensures Filled(q, k, i, j, MatchAt(q, i, Set(k)).value.opMap, counter, s, t, added)
  {
    hide MatchAt;
    JumpMap(q, i, j, Set(k)[2].input, k);
    t := q[j + 1];
    added := if k == 6 then [] else [Label(Gen(counter))];
    s := if k == 4 then Instr(Brtf, t.a, Id(Gen(counter)), t.b)
      else if k == 5 then Instr(Brtf, Id(Gen(counter)), t.a, t.b) else t;
  }

  lemma IfFilled(q: Code, counter: nat, k: nat, i: nat, j: nat) returns (s: Item, t: Item, added: Code)
    requires 7 <= k <= 10 && i < |q| && ThreadHits(q, i, j, Set(k))
    ensures ThreadAt(q, counter, k, i, j, s, t, added)
    ensures Filled(q, k, i, j, MatchAt(q, i, Set(k)).value.opMap, counter, s, t, added)
  {
    hide MatchAt;
    IfMap(q, i, j, if k == 7 || k == 9 then Brt else Brf);
    t := q[j + 1].(b := q[i].b);
    added := if k <= 8 then [] else [Label(Gen(counter))];
    s := if k <= 8 then t else q[i].(a := Id(Gen(counter)));
  }

  /** Where a branch rule set matches the label is the first of its name behind the branch. */
  lemma ThreadFirst(q: Code, k: nat, i: nat, j: nat)
    requires 4 <= k < SetCount && i < |q| && ThreadHits(q, i, j, Set(k))
    ensures forall g :: i < g < j ==> q[g] != q[j]
  {
    hide MatchAt;
    if k <= 6 { JumpMap(q, i, j, Set(k)[2].input, k); } else { IfMap(q, i, j, if k == 7 || k == 9 then Brt else Brf); }
    var m := Unmapped.Map(q[i], Set(k)[0].input).value;
    forall g | i < g < j ensures q[g] != q[j] {
      assert !m.CanMap(q[g], L(0));
    }
  }

  /** Rule sets 4 to 10 retarget a branch to a label that stands before another
      branch, and may place a new label behind that one. */
  lemma ThreadEffect(q: Code, counter: nat, k: nat, i: nat)
      returns (j: nat, s: Item, t: Item, added: Code)
    requires 4 <= k < SetCount && i < |q| && Apply(q, counter, k, i).Present?
    ensures ThreadAt(q, counter, k, i, j, s, t, added) && LastHit(q, k, i) == j + 1
    ensures forall g :: i < g < j ==> q[g] != q[j]
    ensures Apply(q, counter, k, i)
      == Present(Rewritten(Threaded(q, i, j, s, t, added), CounterAfter(counter, added)))
  {
    hide Apply, Threaded, BranchRule, Filled, ThreadAt, Set, MatchAt, CounterAfter;
    j := ThreadResult(q, counter, k, i);
    ThreadLast(q, k, i, j);
    ThreadFirst(q, k, i, j);
    hide LastHit;
    if k <= 6 {
      s, t, added := JumpFilled(q, counter, k, i, j);
    } else {
      s, t, added := IfFilled(q, counter, k, i, j);
    }
  }

  lemma CounterGrows(q: Code, counter: nat, k: nat, i: nat)
    requires k < SetCount && i < |q| && Apply(q, counter, k, i).Present?
    ensures Apply(q, counter, k, i).value.counter >= counter
  {
    if k < 2 {
      var j := SwapEffect(q, counter, k, i);
    } else if k < 4 {
      ShortenEffect(q, counter, k, i);
    } else {
      var j, s, t, added := ThreadEffect(q, counter, k, i);
    }
  }
}
