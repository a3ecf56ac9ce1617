/** Heights, stored balance factors and in-order sequences across a rotation. */
module AvlBalance {
  import opened AvlShape
  import opened AvlRotate

  /** The child tree on side `sign`. */
  function Side(t: Tree, sign: int): Tree
    requires t.Branch?
  {
    if sign < 0 then t.left else t.right
  }

  lemma BrSides(t: Tree, sign: int)
    requires t.Branch? && (sign == 1 || sign == -1)
    ensures t == Br(sign, Side(t, sign), t.node, Side(t, -sign))
  {
  }

  lemma BrBalanced(m: Mem, sign: int, x: Tree, n: Node, y: Tree)
    requires sign == 1 || sign == -1
    ensures Height(Br(sign, x, n, y)) == 1 + Max(Height(x), Height(y))
    ensures Balanced(m, Br(sign, x, n, y)) <==>
            && n in m && -1 <= m[n].balance <= 1 && m[n].balance == sign * (Height(x) - Height(y))
            && Balanced(m, x) && Balanced(m, y)
  {
  }

  /** Memory that agrees on the balance factors agrees on balance. */
  lemma {:induction false} SameBalance(m: Mem, m': Mem, t: Tree)
    requires Balanced(m, t)
    requires forall n :: n in m && n in Nodes(t) ==> n in m' && m'[n].balance == m[n].balance
    ensures Balanced(m', t)
  {
    hide Height;
    match t
    case Leaf =>
    case Branch(l, n, r) => SameBalance(m, m', l); SameBalance(m, m', r);
  }

  lemma {:induction false} SameCtxBalance(m: Mem, m': Mem, c: Ctx, h: int)
    requires CtxBalanced(m, c, h)
    requires forall n :: n in m && n in CtxNodes(c) ==> n in m' && m'[n].balance == m[n].balance
    ensures CtxBalanced(m', c, h)
  {
    hide Nodes, Height;
    match c
    case Top =>
    case InLeft(up, n, r) => SameBalance(m, m', r); SameCtxBalance(m, m', up, 1 + Max(h, Height(r)));
    case InRight(up, l, n) => SameBalance(m, m', l); SameCtxBalance(m, m', up, 1 + Max(Height(l), h));
  }

  lemma RotateInOrder(sign: int, d: Tree, B: Node, e: Tree, A: Node, r: Tree)
    ensures InOrder(Br(sign, Br(sign, d, B, e), A, r)) == InOrder(Br(sign, d, B, Br(sign, e, A, r)))
  {
    var D, E, R := InOrder(d), InOrder(e), InOrder(r);
    assert (D + [B] + E) + [A] + R == D + [B] + (E + [A] + R);
    assert R + [A] + (E + [B] + D) == (R + [A] + E) + [B] + D;
  }

  lemma DoubleInOrder(sign: int, d: Tree, B: Node, f: Tree, E: Node, g: Tree, A: Node, r: Tree)
    requires sign == 1 || sign == -1
    ensures InOrder(Br(sign, Br(sign, d, B, Br(sign, f, E, g)), A, r))
         == InOrder(Br(sign, Br(sign, d, B, f), E, Br(sign, g, A, r)))
  {
    var x := Br(sign, Br(sign, d, B, f), E, g);
    RotateInOrder(sign, d, B, f, E, g);
    assert InOrder(x) == InOrder(Br(sign, d, B, Br(sign, f, E, g)));
    RotateInOrder(sign, Br(sign, d, B, f), E, g, A, r);
    assert InOrder(Br(sign, x, A, r)) == InOrder(Br(sign, Br(sign, d, B, Br(sign, f, E, g)), A, r));
  }

  function Fib(n: nat): nat {
    if n < 2 then n else Fib(n - 1) + Fib(n - 2)
  }

  lemma {:induction false} FibGrows(m: nat, n: nat)
    requires m <= n
    ensures Fib(m) <= Fib(n)
    decreases n
  {
    if m < n {
      if n >= 2 { FibGrows(m, n - 1); }
    }
  }

  /** A balanced tree of height h has at least Fib(h + 2) - 1 nodes, so a search, which
      makes at most one comparison for each level, is logarithmic. */
  lemma {:induction false} SizeBound(m: Mem, t: Tree)
    requires Balanced(m, t)
    ensures |InOrder(t)| + 1 >= Fib(Height(t) + 2)
  {
    hide Fib;
    match t
    case Leaf => FibTwo();
    case Branch(l, n, r) =>
      BranchFacts(m, t);
      hide Balanced, InOrder, Height, Max;
      SizeBound(m, l);
      SizeBound(m, r);
      FibLevels(Height(l), Height(r));
  }

  lemma FibLevels(a: nat, b: nat)
    requires -1 <= a - b <= 1
    ensures Fib(a + 2) + Fib(b + 2) >= Fib(Max(a, b) + 3)
  {
    hide Fib;
    FibSum(Max(a, b));
    FibGrows(Max(a, b) + 1, a + 2);
    FibGrows(Max(a, b) + 1, b + 2);
  }

  lemma BranchFacts(m: Mem, t: Tree)
    requires t.Branch? && Balanced(m, t)
    ensures Balanced(m, t.left) && Balanced(m, t.right) && -1 <= Height(t.left) - Height(t.right) <= 1
    ensures t.node in m && m[t.node].balance == Height(t.right) - Height(t.left)
    ensures |InOrder(t)| == |InOrder(t.left)| + 1 + |InOrder(t.right)|
    ensures Height(t) == 1 + Max(Height(t.left), Height(t.right))
  {
  }

  lemma FibTwo()
    ensures Fib(2) == 1
  {
  }

  lemma FibSum(h: nat)
    ensures Fib(h + 3) == Fib(h + 2) + Fib(h + 1)
  {
  }
}
