/** Assembler items: what the scanner hands to the keyhole optimiser and what the
    optimiser hands to the code generator, one item per label or instruction. */
module Assembly {
  /** A label name. Source names start with a letter or `_`; names made by the
      optimiser are decimal numbers, so the two kinds never meet. `Entry` marks
      the start of a procedure, which no branch operand can name. */
  datatype Name = Src(text: string) | Gen(number: nat) | Entry(proc: string)

  datatype RegKind = Local | Global | Argument

  datatype Operand =
    | None
    | Reg(kind: RegKind, number: nat)
    | Id(name: Name)
    | Func(proc: string)
    | Literal(text: string)
    | Int(value: int)

  /** Mnemonics. `Count` are the instructions that count up or down in a local register
      they do not name (inc0, inc1, inc2, dec0, dec1, dec2), `Implicit` the others that
      use registers they do not name (amap). */
  datatype Op =
    | Br | Brt | Brf | Brtf
    | Swap | Concat | Sconcat | Append | Sappend
    | Count(up: bool, reg: nat)
    | Implicit(mnemonic: string)
    | Other(mnemonic: string)

  datatype Item =
    | Label(name: Name)
    | Instr(op: Op, a: Operand, b: Operand, c: Operand)

  type Code = seq<Item>

  /** The position of the first definition of `name`, or the length of the code. */
  function Find(code: Code, name: Name): (at: nat)
    ensures at <= |code|
    ensures forall k :: 0 <= k < at ==> code[k] != Label(name)
    ensures at < |code| ==> code[at] == Label(name)
  {
    if code == [] || code[0] == Label(name) then 0 else 1 + Find(code[1..], name)
  }

  lemma FindIs(code: Code, name: Name, at: nat)
    requires at <= |code|
    requires forall k :: 0 <= k < at ==> code[k] != Label(name)
    requires at < |code| ==> code[at] == Label(name)
    ensures Find(code, name) == at
  {
  }

  /** Every label is defined at most once. */
  predicate UniqueLabels(code: Code) {
    forall i, j :: 0 <= i < j < |code| && code[i].Label? ==> code[i] != code[j]
  }

  predicate Names(o: Operand, name: Name) { o == Id(name) }

  predicate Mentions(item: Item, name: Name) {
    match item
    case Label(n) => n == name
    case Instr(_, a, b, c) => Names(a, name) || Names(b, name) || Names(c, name)
  }

  /** No generated name numbered `counter` or higher occurs. */
  ghost predicate Below(code: Code, counter: nat) {
    forall item, n :: item in code && n >= counter ==> !Mentions(item, Gen(n))
  }
}
