/** The keyhole optimiser's rule table and its matcher. */
module KeyholeRules {
  import opened Assembly

  datatype Flag = NoGap | NoHazard | AnyGap

  datatype OpPattern = NoOp | R(slot: nat) | B(slot: nat)

  datatype Pattern =
    | Nothing
    | L(slot: nat)
    | I(op: Op, a: OpPattern, b: OpPattern, c: OpPattern)

  datatype Rule = Rule(flag: Flag, input: Pattern, out: Pattern, out2: Pattern)

  /** A rule set without its end marker. */
  type RuleSet = seq<Rule>

  /* ---- The table ---- */

  function SwapPair(x: nat, y: nat): RuleSet {
    [ Rule(NoHazard, I(Swap, R(0), R(1), NoOp), Nothing, Nothing),
      Rule(NoHazard, I(Swap, R(x), R(y), NoOp), Nothing, Nothing) ]
  }

  function Shorten(long: Op, short: Op): RuleSet {
    [ Rule(NoHazard, I(long, R(0), R(0), R(1)), I(short, R(0), R(1), NoOp), Nothing) ]
  }

  /** A branch to a label that stands directly before another branch. */
  function Thread(first: Pattern, retargeted: Pattern, second: Pattern, added: Pattern): RuleSet {
    [ Rule(AnyGap, first, retargeted, Nothing),
      Rule(AnyGap, L(0), L(0), Nothing),
      Rule(NoGap, second, second, added) ]
  }

  function JumpTo(slot: nat): Pattern { I(Br, B(slot), NoOp, NoOp) }
  function IfTo(op: Op, slot: nat): Pattern { I(op, B(slot), R(0), NoOp) }
  function Either(yes: nat, no: nat): Pattern { I(Brtf, B(yes), B(no), R(0)) }

  const SetCount: nat := 11

  function Set(k: nat): RuleSet
    requires k < SetCount
  {
    if k == 0 then SwapPair(0, 1)
    else if k == 1 then SwapPair(1, 0)
    else if k == 2 then Shorten(Sconcat, Sappend)
    else if k == 3 then Shorten(Concat, Append)
    else if k == 4 then Thread(JumpTo(0), Either(1, 2), IfTo(Brt, 1), L(2))
    else if k == 5 then Thread(JumpTo(0), Either(2, 1), IfTo(Brf, 1), L(2))
    else if k == 6 then Thread(JumpTo(0), Either(1, 2), Either(1, 2), Nothing)
    else if k == 7 then Thread(IfTo(Brt, 0), IfTo(Brt, 1), IfTo(Brt, 1), Nothing)
    else if k == 8 then Thread(IfTo(Brf, 0), IfTo(Brf, 1), IfTo(Brf, 1), Nothing)
    else if k == 9 then Thread(IfTo(Brt, 0), IfTo(Brt, 2), IfTo(Brf, 1), L(2))
    else Thread(IfTo(Brf, 0), IfTo(Brf, 2), IfTo(Brt, 1), L(2))
  }

  /* ---- Operand maps ---- */

  /** The operands a match has fixed so far, by the rule's own numbers. */
  datatype OpMap = OpMap(reg: map<nat, Operand>, branch: map<nat, Name>, lab: map<nat, Name>)
  {
    /** Registers are compared by number alone: the recorded kind is always 'r'. */
    predicate Admits(o: Operand, p: OpPattern) {
      match p
      case NoOp => o == None
      case R(n) => o.Reg? && (n in reg ==> reg[n].Reg? && reg[n].number == o.number)
      case B(n) =>
        o.Id? && (if n in branch then branch[n] == o.name else n in lab ==> lab[n] == o.name)
    }

    function Bind(o: Operand, p: OpPattern): OpMap
      requires Admits(o, p)
    {
      match p
      case NoOp => this
      case R(n) => if n in reg then this else this.(reg := reg[n := o])
      case B(n) => if n in branch then this else this.(branch := branch[n := o.name])
    }

    predicate AdmitsLabel(name: Name, n: nat) {
      if n in lab then lab[n] == name else n in branch ==> branch[n] == name
    }

    function BindLabel(name: Name, n: nat): OpMap {
      if n in lab then this else this.(lab := lab[n := name])
    }

    /** The check without update, each operand against the map as it stands. */
    predicate CanMap(item: Item, p: Pattern) {
      match p
      case Nothing => false
      case L(n) => item.Label? && AdmitsLabel(item.name, n)
      case I(op, a, b, c) =>
        item.Instr? && item.op == op && Admits(item.a, a) && Admits(item.b, b) && Admits(item.c, c)
    }

    /** The check with update, each operand against the map the one before left;
        None when the item does not fit. */
    function Map(item: Item, p: Pattern): (m: Option<OpMap>) {
      match p
      case Nothing => Absent
      case L(n) =>
        if item.Label? && AdmitsLabel(item.name, n) then Present(BindLabel(item.name, n)) else Absent
      case I(op, a, b, c) =>
        if !(item.Instr? && item.op == op && Admits(item.a, a)) then Absent else
        var m1 := Bind(item.a, a);
        if !m1.Admits(item.b, b) then Absent else
        var m2 := m1.Bind(item.b, b);
        if !m2.Admits(item.c, c) then Absent else
        Present(m2.Bind(item.c, c))
    }

    /** The map after an item that can map; the result of the second check is not
        looked at, so what it fixed before failing stays. */
    function Mapped(item: Item, p: Pattern): OpMap {
      var m := Map(item, p);
      if m.Present? then m.value else this
    }

    /** Whether the operand is a register the match has fixed. Only registers of
        kind 'r' are ever found. */
    predicate Relevant(o: Operand) {
      o.Reg? && o.kind == Local && exists n :: n in reg && reg[n].Reg? && reg[n].number == o.number
    }

    predicate Touches(item: Item) {
      item.Instr? && (Relevant(item.a) || Relevant(item.b) || Relevant(item.c))
    }
  }

  datatype Option<T> = Absent | Present(value: T)

  const Unmapped := OpMap(map[], map[], map[])

  predicate Changes(o: Operand) { o.Id? || o.Func? }

  /** Labels, and instructions with a label or procedure operand. */
  predicate Hazardous(item: Item) {
    item.Label? || Changes(item.a) || Changes(item.b) || Changes(item.c)
  }

  /* ---- Matching ---- */

  datatype Hit = Hit(at: nat, rule: Rule)
  datatype Match = Match(opMap: OpMap, hits: seq<Hit>)

  predicate Blocks(m: OpMap, item: Item, flag: Flag) {
    match flag
    case NoGap => true
    case NoHazard => Hazardous(item) || m.Touches(item)
    case AnyGap => false
  }

  /** Matches the remaining rules from position k on. */
  function Scan(q: Code, k: nat, m: OpMap, rules: RuleSet): (r: Option<Match>)
    requires k <= |q|
    decreases |q| - k
  {
    if rules == [] then Present(Match(m, []))
    else if k == |q| then Absent
    else if m.CanMap(q[k], rules[0].input) then
      var rest := Scan(q, k + 1, m.Mapped(q[k], rules[0].input), rules[1..]);
      if rest.Absent? then Absent
      else Present(Match(rest.value.opMap, [Hit(k, rules[0])] + rest.value.hits))
    else if Blocks(m, q[k], rules[0].flag) then Absent
    else Scan(q, k + 1, m, rules)
  }

  function MatchAt(q: Code, i: nat, rules: RuleSet): Option<Match>
    requires i < |q| && rules != []
  {
    var m := Unmapped.Map(q[i], rules[0].input);
    if m.Absent? then Absent else
    var rest := Scan(q, i + 1, m.value, rules[1..]);
    if rest.Absent? then Absent
    else Present(Match(rest.value.opMap, [Hit(i, rules[0])] + rest.value.hits))
  }

  /* ---- Output ---- */

  /** The operand map and the number of the next generated label while output
      templates are filled in. */
  datatype Filler = Filler(opMap: OpMap, counter: nat)
  {
    /** The label for slot n: the mapped one, its branch partner, or a new one. */
    function LabelFor(n: nat): (Name, Filler) {
      if n in opMap.lab then (opMap.lab[n], this)
      else if n in opMap.branch then
        (opMap.branch[n], Filler(opMap.(lab := opMap.lab[n := opMap.branch[n]]), counter))
      else (Gen(counter), Filler(opMap.(lab := opMap.lab[n := Gen(counter)]), counter + 1))
    }

    /** The branch target for slot n: the mapped one, its label partner, or a new one. */
    function BranchFor(n: nat): (Name, Filler) {
      if n in opMap.branch then (opMap.branch[n], this)
      else if n in opMap.lab then
        (opMap.lab[n], Filler(opMap.(branch := opMap.branch[n := opMap.lab[n]]), counter))
      else (Gen(counter), Filler(opMap.(branch := opMap.branch[n := Gen(counter)]), counter + 1))
    }

    function Fill(p: OpPattern): (Operand, Filler) {
      match p
      case NoOp => (None, this)
      case R(n) => (if n in opMap.reg then opMap.reg[n] else None, this)
      case B(n) => var (name, f) := BranchFor(n); (Id(name), f)
    }

    function Make(p: Pattern): (Item, Filler)
      requires p != Nothing
    {
      match p
      case L(n) => var (name, f) := LabelFor(n); (Label(name), f)
      case I(op, a, b, c) =>
        var (x, f1) := Fill(a);
        var (y, f2) := f1.Fill(b);
        var (z, f3) := f2.Fill(c);
        (Instr(op, x, y, z), f3)
    }
  }

  /** The queue and the filler while a match is written out. */
  datatype Output = Output(queue: Code, filler: Filler)

  function WriteMain(o: Output, k: nat, p: Pattern): (r: Output)
    requires k < |o.queue|
    ensures k <= |r.queue|
  {
    if p == Nothing then Output(o.queue[..k] + o.queue[k + 1..], o.filler)
    else var (item, f) := o.filler.Make(p); Output(o.queue[k := item], f)
  }

  function WriteExtra(o: Output, k: nat, p: Pattern): (r: Output)
    requires k <= |o.queue|
    requires p != Nothing ==> k < |o.queue|
  {
    if p == Nothing then o
    else var (item, f) := o.filler.Make(p); Output(o.queue[..k + 1] + [item] + o.queue[k + 1..], f)
  }

  /** An extra output is only used with a main output. */
  predicate WellFormed(r: Rule) { r.out2 != Nothing ==> r.out != Nothing }

  predicate HitsIn(hits: seq<Hit>, n: nat) {
    && (forall h :: 0 <= h < |hits| ==> hits[h].at < n && WellFormed(hits[h].rule))
    && (forall g, h :: 0 <= g < h < |hits| ==> hits[g].at < hits[h].at)
  }

  function WriteHit(o: Output, h: Hit): (r: Output)
    requires h.at < |o.queue| && WellFormed(h.rule)
    ensures |r.queue| >= h.at
  {
    WriteExtra(WriteMain(o, h.at, h.rule.out), h.at, h.rule.out2)
  }

  /** The outputs, from the last matched position back to the first. */
  function Write(o: Output, hits: seq<Hit>): Output
    requires HitsIn(hits, |o.queue|)
    decreases |hits|
  {
    if hits == [] then o
    else
      var n := |hits| - 1;
      Write(WriteHit(o, hits[n]), hits[..n])
  }

  /** Scanning yields ascending positions inside the queue. */
  lemma {:induction false} ScanHits(q: Code, k: nat, m: OpMap, rules: RuleSet)
    requires k <= |q|
    requires forall r :: 0 <= r < |rules| ==> WellFormed(rules[r])
    requires Scan(q, k, m, rules).Present?
    ensures var hits := Scan(q, k, m, rules).value.hits;
      HitsIn(hits, |q|) && (forall h :: 0 <= h < |hits| ==> k <= hits[h].at)
    decreases |q| - k
  {
    if rules != [] && k < |q| {
      if m.CanMap(q[k], rules[0].input) {
        ScanHits(q, k + 1, m.Mapped(q[k], rules[0].input), rules[1..]);
      } else {
        ScanHits(q, k + 1, m, rules);
      }
    }
  }

  lemma MatchHits(q: Code, i: nat, rules: RuleSet)
    requires i < |q| && rules != []
    requires forall r :: 0 <= r < |rules| ==> WellFormed(rules[r])
    requires MatchAt(q, i, rules).Present?
    ensures HitsIn(MatchAt(q, i, rules).value.hits, |q|)
  {
    var m := Unmapped.Map(q[i], rules[0].input);
    ScanHits(q, i + 1, m.value, rules[1..]);
  }

  lemma SetsWellFormed(k: nat)
    requires k < SetCount
    ensures Set(k) != []
    ensures forall r :: 0 <= r < |Set(k)| ==> WellFormed(Set(k)[r])
  {
  }

  /** What applying rule set k at position i leaves: the new queue and counter. */
  datatype Rewritten = Rewritten(queue: Code, counter: nat)

  function Apply(q: Code, counter: nat, k: nat, i: nat): (r: Option<Rewritten>)
    requires k < SetCount && i < |q|
  {
    SetsWellFormed(k);
    var m := MatchAt(q, i, Set(k));
    if m.Absent? then Absent else
    MatchHits(q, i, Set(k));
    var o := Write(Output(q, Filler(m.value.opMap, counter)), m.value.hits);
    Present(Rewritten(o.queue, o.filler.counter))
  }
}
