/** What one level of rebalancing after a deletion does to the tree. The subtree `t` on the
    side of `A` away from `sign` has shrunk by one; `r` is the subtree on side `sign`. */
module AvlShrink {
  import opened AvlShape
  import opened AvlRotate
  import opened AvlBalance
  import opened AvlGrowth

  /** Exactly one subtree of A is one shorter than A's balance factor and the rest of the tree
      have been told; everything is in order otherwise. */
  ghost predicate Shrunk(h: Heap, c: Ctx, sign: int, t: Tree, A: Node, r: Tree) {
    && (sign == 1 || sign == -1)
    && At(h, c, Br(sign, r, A, t))
    && Balanced(h.mem, t) && Balanced(h.mem, r)
    && A in h.mem && -1 <= h.mem[A].balance <= 1
    && h.mem[A].balance == sign * (Height(r) - Height(t) - 1)
    && CtxBalanced(h.mem, c, 1 + Max(Height(t) + 1, Height(r)))
  }

  lemma ShrunkAt(h: Heap, c: Ctx, sign: int, t: Tree, A: Node, r: Tree)
    requires Shrunk(h, c, sign, t, A, r)
    ensures sign == 1 || sign == -1
    ensures At(h, c, Br(sign, r, A, t)) && Balanced(h.mem, r)
    ensures A in h.mem && -1 <= h.mem[A].balance <= 1
  {
  }

  /** One level up from a subtree that has shrunk. */
  lemma ShrunkUp(h: Heap, c: Ctx, t: Tree)
    requires !c.Top? && At(h, c, t) && Balanced(h.mem, t) && CtxBalanced(h.mem, c, Height(t) + 1)
    ensures Shrunk(h, c.up, -CtxSign(c), t, c.node, CtxSibling(c))
    ensures Plug(c.up, Br(-CtxSign(c), CtxSibling(c), c.node, t)) == Plug(c, t)
    ensures c.node in h.mem && h.mem[c.node].parent == CtxParent(c.up)
  {
    hide Nodes, Distinct, Linked, Balanced, Height;
    BrView(h.mem, -CtxSign(c), CtxSibling(c), c.node, t, CtxParent(c.up));
  }

  lemma ShrunkUntouched(h: Heap, h': Heap, c: Ctx, sign: int, t: Tree, A: Node, r: Tree)
    requires Shrunk(h, c, sign, t, A, r)
    requires exists b :: h'.mem == SetBalance(h.mem, A, b)
    ensures Balanced(h'.mem, t) && Balanced(h'.mem, r)
    ensures CtxBalanced(h'.mem, c, 1 + Max(Height(t) + 1, Height(r)))
  {
    hide Balanced, CtxBalanced, Height, CtxLinked, CtxDistinct;
    BrView(h.mem, sign, r, A, t, CtxParent(c));
    SameBalance(h.mem, h'.mem, t);
    SameBalance(h.mem, h'.mem, r);
    SameCtxBalance(h.mem, h'.mem, c, 1 + Max(Height(t) + 1, Height(r)));
  }

  /** Case 1: A was level; it leans now, and its height has not changed. */
  lemma ShrinkLevel(h: Heap, h': Heap, c: Ctx, sign: int, t: Tree, A: Node, r: Tree)
    requires Shrunk(h, c, sign, t, A, r) && h.mem[A].balance == 0
    requires h' == h.(mem := SetBalance(h.mem, A, sign))
    ensures var t' := Br(sign, r, A, t);
            At(h', c, t') && Balanced(h'.mem, t') && CtxBalanced(h'.mem, c, Height(t'))
  {
    hide At, Balanced, CtxBalanced, Height, Br;
    BalanceOnly(h, h', c, Br(sign, r, A, t), A);
    ShrunkUntouched(h, h', c, sign, t, A, r);
    BrBalanced(h'.mem, sign, r, A, t);
  }

  /** Case 2: A leaned to the shrunken side; it is level now and one shorter. */
  lemma ShrinkPassedOn(h: Heap, h': Heap, c: Ctx, sign: int, t: Tree, A: Node, r: Tree)
    requires Shrunk(h, c, sign, t, A, r) && h.mem[A].balance + sign == 0
    requires h' == h.(mem := SetBalance(h.mem, A, 0))
    ensures var t' := Br(sign, r, A, t);
            At(h', c, t') && Balanced(h'.mem, t') && CtxBalanced(h'.mem, c, Height(t') + 1)
  {
    hide At, Balanced, CtxBalanced, Height, Br;
    BalanceOnly(h, h', c, Br(sign, r, A, t), A);
    ShrunkUntouched(h, h', c, sign, t, A, r);
    BrBalanced(h'.mem, sign, r, A, t);
  }

  /** Where A gets too heavy, the other side is not empty. */
  lemma TallSibling(h: Heap, c: Ctx, sign: int, t: Tree, A: Node, r: Tree)
    requires Shrunk(h, c, sign, t, A, r) && h.mem[A].balance == sign
    ensures r.Branch? && r.node in h.mem && -1 <= h.mem[r.node].balance <= 1
    ensures Height(r) == Height(t) + 2
  {
    hide At, CtxBalanced, Balanced, Height;
    assert Balanced(h.mem, r);
    SignCancels(sign, Height(r) - Height(t) - 1);
    TallTree(h.mem, r);
  }

  lemma SignCancels(sign: int, x: int)
    requires (sign == 1 || sign == -1) && sign * x == sign
    ensures x == 1
  {
  }

  lemma TallTree(m: Mem, t: Tree)
    requires Balanced(m, t) && Height(t) > 0
    ensures t.Branch? && t.node in m && -1 <= m[t.node].balance <= 1
  {
  }

  /** Case 3: B, on the heavy side, does not lean against A; a single rotation. If B was level
      the height is unchanged, otherwise it is one less. */
  lemma ShrinkSingle(h: Heap, m: Mem, c: Ctx, sign: int, d: Tree, B: Node, e: Tree, A: Node, t: Tree)
    requires Shrunk(h, c, sign, t, A, Br(sign, d, B, e)) && h.mem[A].balance == sign
    requires B in h.mem && (h.mem[B].balance == 0 || h.mem[B].balance == sign)
    requires A in m && B in m && OtherBalances(h.mem, m, {A, B})
    requires h.mem[B].balance == 0 ==> m[A].balance == sign && m[B].balance == -sign
    requires h.mem[B].balance == sign ==> m[A].balance == 0 && m[B].balance == 0
    ensures var t' := Br(sign, d, B, Br(sign, e, A, t));
            && Balanced(m, t')
            && CtxBalanced(m, c, if h.mem[B].balance == 0 then Height(t') else Height(t') + 1)
  {
    hide Balanced, CtxBalanced, Linked, CtxLinked, Distinct, CtxDistinct, Height, Nodes, CtxNodes, Br;
    var r := Br(sign, d, B, e);
    BrBalanced(h.mem, sign, d, B, e);
    RotateDistinct(sign, d, B, e, A, t);
    SameBalance(h.mem, m, d);
    SameBalance(h.mem, m, e);
    SameBalance(h.mem, m, t);
    SameCtxBalance(h.mem, m, c, 1 + Max(Height(t) + 1, Height(r)));
    BrBalanced(m, sign, e, A, t);
    BrBalanced(m, sign, d, B, Br(sign, e, A, t));
  }

  /** Case 4: B leans against A; a double rotation, and the height is one less. */
  lemma ShrinkDouble(h: Heap, m: Mem, c: Ctx, sign: int,
                     d: Tree, B: Node, f: Tree, E: Node, g: Tree, A: Node, t: Tree)
    requires Shrunk(h, c, sign, t, A, Br(sign, d, B, Br(sign, f, E, g)))
    requires h.mem[A].balance == sign && B in h.mem && h.mem[B].balance == -sign && E in h.mem
    requires DoubleBalances(h.mem, m, A, B, E, -sign)
    ensures var t' := Br(sign, Br(sign, d, B, f), E, Br(sign, g, A, t));
            Balanced(m, t') && CtxBalanced(m, c, Height(t') + 1)
  {
    hide Balanced, CtxBalanced, Linked, CtxLinked, Distinct, CtxDistinct, Height, Nodes, CtxNodes, Br;
    var r := Br(sign, d, B, Br(sign, f, E, g));
    DoubleBalanced(h.mem, m, sign, d, B, f, E, g, A, t);
    DoubleDistinct(sign, d, B, f, E, g, A, t);
    SameCtxBalance(h.mem, m, c, 1 + Max(Height(t) + 1, Height(r)));
  }

  /** Where a subtree hangs can be read off its root. */
  lemma ParentSide(h: Heap, c: Ctx, t: Tree)
    requires At(h, c, t) && t.Branch?
    ensures t.node in h.mem && h.mem[t.node].parent == CtxParent(c)
    ensures CtxParent(c) != null ==> c.node in h.mem && (h.mem[c.node].left == t.node <==> c.InLeft?)
    ensures CtxParent(c) == null ==> forall h', h'' :: CtxBalanced(h.mem, c, h') == CtxBalanced(h.mem, c, h'')
  {
    hide Linked, Distinct;
    assert t.node in Nodes(t) && t.node in h.mem by { LinkedRoot(h.mem, t, CtxParent(c)); }
    LinkedRoot(h.mem, t, CtxParent(c));
  }

  lemma LinkedRoot(m: Mem, t: Tree, p: Node?)
    requires Linked(m, t, p) && t.Branch?
    ensures t.node in m && m[t.node].parent == p
  {
  }

  lemma AtTop(m: Mem, c: Ctx, h: int, h': int)
    requires CtxParent(c) == null
    ensures CtxBalanced(m, c, h')
  {
  }
}
