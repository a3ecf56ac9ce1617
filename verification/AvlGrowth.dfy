/** What one level of rebalancing after an insertion does to the tree. `B` is the root of the
    subtree that has grown by one, on side `sign` of `A`. */
module AvlGrowth {
  import opened AvlShape
  import opened AvlRotate
  import opened AvlBalance

  /** A has a subtree `t` on side `sign` whose height is one more than A's balance factor and
      the rest of the tree have been told; everything is in order otherwise. */
  ghost predicate Grown(h: Heap, c: Ctx, sign: int, t: Tree, A: Node, r: Tree) {
    && (sign == 1 || sign == -1) && t.Branch?
    && At(h, c, Br(sign, t, A, r))
    && Balanced(h.mem, t) && Balanced(h.mem, r)
    && A in h.mem && -1 <= h.mem[A].balance <= 1
    && h.mem[A].balance == sign * (Height(t) - 1 - Height(r))
    && CtxBalanced(h.mem, c, 1 + Max(Height(t) - 1, Height(r)))
  }

  /** One level up, where the subtree is a child of the next ancestor. */
  lemma GrownUp(h: Heap, c: Ctx, t: Tree)
    requires !c.Top? && t.Branch? && At(h, c, t) && Balanced(h.mem, t) && CtxBalanced(h.mem, c, Height(t) - 1)
    ensures Grown(h, c.up, CtxSign(c), t, c.node, CtxSibling(c))
    ensures Plug(c.up, Br(CtxSign(c), t, c.node, CtxSibling(c))) == Plug(c, t)
    ensures c.node in h.mem && h.mem[c.node].parent == CtxParent(c.up)
    ensures h.mem[c.node].left == t.node <==> c.InLeft?
  {
    hide Nodes, Distinct, Linked, Balanced, Height;
    NodesInclude(t);
    NodesInclude(CtxSibling(c));
    BrView(h.mem, CtxSign(c), t, c.node, CtxSibling(c), CtxParent(c.up));
  }

  lemma NodesInclude(t: Tree)
    ensures t.Branch? ==> Nodes(t) == Nodes(t.left) + {t.node} + Nodes(t.right)
    ensures Root(t) != null ==> Root(t) in Nodes(t)
  {
  }

  /** Next to a new leaf there is at most one level, so nothing gets too heavy there. */
  lemma FirstLevel(h: Heap, c: Ctx, sign: int, item: Node, A: Node, r: Tree)
    requires Grown(h, c, sign, Branch(Leaf, item, Leaf), A, r)
    ensures A in h.mem && (h.mem[A].balance == 0 || h.mem[A].balance == -sign)
  {
  }

  /** When nothing is off any more, the whole tree is in order. */
  lemma Whole(h: Heap, c: Ctx, t: Tree)
    requires At(h, c, t) && Balanced(h.mem, t) && CtxBalanced(h.mem, c, Height(t))
    ensures At(h, Top, Plug(c, t)) && Balanced(h.mem, Plug(c, t))
  {
    AtPlug(h, c, t);
    BalancedPlug(h.mem, c, t);
  }

  lemma WholeAtTop(h: Heap, t: Tree)
    requires At(h, Top, t)
    ensures Plug(Top, t) == t
  {
  }

  lemma AtRoot(h: Heap, c: Ctx, t: Tree)
    requires At(h, c, t) && t.Branch?
    ensures t.node in h.mem && h.mem[t.node].parent == CtxParent(c)
  {
  }

  /** A new leaf is balanced, and the path above it still counts it as nothing. */
  lemma NewLeaf(h: Heap, c: Ctx, item: Node)
    requires item in h.mem && h.mem[item].balance == 0 && CtxBalanced(h.mem, c, 0)
    ensures var m := h.mem[item := Rec(null, null, CtxParent(c), 0)];
            && Balanced(m, Branch(Leaf, item, Leaf)) && Height(Branch(Leaf, item, Leaf)) == 1
            && CtxBalanced(m, c, 0)
            && Root(Branch(Leaf, item, Leaf)) == item
  {
    SameCtxBalance(h.mem, h.mem[item := Rec(null, null, CtxParent(c), 0)], c, 0);
  }

  /** The in-order sequence only depends on that of the subtree. */
  lemma SameOrder(c: Ctx, t: Tree, t': Tree)
    requires InOrder(t) == InOrder(t')
    ensures InOrder(Plug(c, t)) == InOrder(Plug(c, t'))
  {
    InOrderPlug(c, t);
    InOrderPlug(c, t');
  }

  lemma GrownAt(h: Heap, c: Ctx, sign: int, t: Tree, A: Node, r: Tree)
    requires Grown(h, c, sign, t, A, r)
    ensures t.Branch? && (sign == 1 || sign == -1)
    ensures At(h, c, Br(sign, t, A, r)) && Balanced(h.mem, t)
  {
  }

  lemma GrownBalances(h: Heap, c: Ctx, sign: int, t: Tree, A: Node, r: Tree)
    requires Grown(h, c, sign, t, A, r)
    ensures A in h.mem && -1 <= h.mem[A].balance <= 1
    ensures t.node in h.mem && -1 <= h.mem[t.node].balance <= 1
  {
  }

  /** The side a node leans to is not empty. */
  lemma TallSide(m: Mem, sign: int, x: Tree, n: Node, y: Tree)
    requires sign == 1 || sign == -1
    requires Balanced(m, Br(sign, x, n, y)) && n in m && m[n].balance == -sign
    ensures y.Branch? && y.node in m
  {
    BrBalanced(m, sign, x, n, y);
  }

  /** Case 1: A was level; it leans now and has grown in turn. */
  lemma GrowthLevel(h: Heap, h': Heap, c: Ctx, sign: int, t: Tree, A: Node, r: Tree)
    requires Grown(h, c, sign, t, A, r) && h.mem[A].balance == 0
    requires h' == h.(mem := SetBalance(h.mem, A, sign))
    ensures var t' := Br(sign, t, A, r);
            && At(h', c, t') && Balanced(h'.mem, t') && h'.mem[A].balance != 0
            && CtxBalanced(h'.mem, c, Height(t') - 1)
  {
    hide At, Balanced, CtxBalanced, Height, Br;
    BalanceOnly(h, h', c, Br(sign, t, A, r), A);
    Untouched(h, h', c, sign, t, A, r);
    BrBalanced(h'.mem, sign, t, A, r);
  }

  /** Case 2: A leaned the other way; it is level now and has its old height. */
  lemma GrowthAbsorbed(h: Heap, h': Heap, c: Ctx, sign: int, t: Tree, A: Node, r: Tree)
    requires Grown(h, c, sign, t, A, r) && h.mem[A].balance + sign == 0
    requires h' == h.(mem := SetBalance(h.mem, A, 0))
    ensures var t' := Br(sign, t, A, r);
            At(h', c, t') && Balanced(h'.mem, t') && CtxBalanced(h'.mem, c, Height(t'))
  {
    hide At, Balanced, CtxBalanced, Height, Br;
    BalanceOnly(h, h', c, Br(sign, t, A, r), A);
    Untouched(h, h', c, sign, t, A, r);
    BrBalanced(h'.mem, sign, t, A, r);
  }

  lemma BalanceOnly(h: Heap, h': Heap, c: Ctx, t: Tree, n: Node)
    requires At(h, c, t) && n in h.mem
    requires exists b :: h' == h.(mem := SetBalance(h.mem, n, b))
    ensures At(h', c, t)
  {
    SameLinks(h.mem, h'.mem, t, CtxParent(c));
    SameCtxLinks(h.mem, h'.mem, c, Root(t));
  }

  ghost predicate SamePointers(m: Mem, m': Mem) {
    forall n :: n in m ==> n in m' && m'[n] == m[n].(balance := m'[n].balance)
  }

  lemma {:induction false} SameLinks(m: Mem, m': Mem, t: Tree, p: Node?)
    requires Linked(m, t, p) && SamePointers(m, m')
    ensures Linked(m', t, p)
  {
    match t
    case Leaf =>
    case Branch(l, n, r) => SameLinks(m, m', l, n); SameLinks(m, m', r, n);
  }

  lemma {:induction false} SameCtxLinks(m: Mem, m': Mem, c: Ctx, hole: Node?)
    requires CtxLinked(m, c, hole) && SamePointers(m, m')
    ensures CtxLinked(m', c, hole)
  {
    match c
    case Top =>
    case InLeft(up, n, r) => SameLinks(m, m', r, n); SameCtxLinks(m, m', up, n);
    case InRight(up, l, n) => SameLinks(m, m', l, n); SameCtxLinks(m, m', up, n);
  }

  lemma Untouched(h: Heap, h': Heap, c: Ctx, sign: int, t: Tree, A: Node, r: Tree)
    requires Grown(h, c, sign, t, A, r)
    requires exists b :: h'.mem == SetBalance(h.mem, A, b)
    ensures Balanced(h'.mem, t) && Balanced(h'.mem, r)
    ensures CtxBalanced(h'.mem, c, 1 + Max(Height(t) - 1, Height(r)))
  {
    hide Balanced, CtxBalanced, Height, CtxLinked, CtxDistinct;
    BrView(h.mem, sign, t, A, r, CtxParent(c));
    SameBalance(h.mem, h'.mem, t);
    SameBalance(h.mem, h'.mem, r);
    SameCtxBalance(h.mem, h'.mem, c, 1 + Max(Height(t) - 1, Height(r)));
  }

  /** Balance factors of the nodes other than `changed` are as they were. */
  ghost predicate OtherBalances(m: Mem, m': Mem, changed: set<Node>) {
    forall n :: n in m && n !in changed ==> n in m' && m'[n].balance == m[n].balance
  }

  /** Case 3: A and B lean the same way; a single rotation restores the old height. */
  lemma GrowthSingle(h: Heap, m: Mem, c: Ctx, sign: int, d: Tree, B: Node, e: Tree, A: Node, r: Tree)
    requires Grown(h, c, sign, Br(sign, d, B, e), A, r)
    requires h.mem[A].balance == sign && B in h.mem && h.mem[B].balance == sign
    requires A in m && B in m && m[A].balance == 0 && m[B].balance == 0 && OtherBalances(h.mem, m, {A, B})
    ensures var t' := Br(sign, d, B, Br(sign, e, A, r));
            Balanced(m, t') && CtxBalanced(m, c, Height(t'))
  {
    hide Balanced, CtxBalanced, Linked, CtxLinked, Distinct, CtxDistinct, Height, Nodes, CtxNodes, Br;
    var t := Br(sign, d, B, e);
    BrBalanced(h.mem, sign, d, B, e);
    RotateDistinct(sign, d, B, e, A, r);
    SameBalance(h.mem, m, d);
    SameBalance(h.mem, m, e);
    SameBalance(h.mem, m, r);
    SameCtxBalance(h.mem, m, c, 1 + Max(Height(t) - 1, Height(r)));
    BrBalanced(m, sign, e, A, r);
    BrBalanced(m, sign, d, B, Br(sign, e, A, r));
  }

  lemma DoubleHeights(sign: int, d: int, f: int, g: int, r: int, e: int)
    requires sign == 1 || sign == -1
    requires -1 <= e <= 1 && e == sign * (f - g) && d == r && Max(f, g) == r
    ensures (if -sign * e >= 0 then 0 else -e) == sign * (g - r)
    ensures (if -sign * e <= 0 then 0 else -e) == sign * (d - f)
    ensures -1 <= g - r <= 1 && -1 <= d - f <= 1
    ensures Max(d, f) == r && Max(g, r) == r
  {
  }

  /** The four subtrees a double rotation moves keep their balance factors. */
  lemma DoubleUntouched(m: Mem, m': Mem, sign: int,
                        d: Tree, B: Node, f: Tree, E: Node, g: Tree, A: Node, r: Tree)
    requires sign == 1 || sign == -1
    requires Distinct(Br(sign, Br(sign, d, B, Br(sign, f, E, g)), A, r)) && DoubleBalances(m, m', A, B, E, -sign)
    requires Balanced(m, d) && Balanced(m, f) && Balanced(m, g) && Balanced(m, r)
    ensures Balanced(m', d) && Balanced(m', f) && Balanced(m', g) && Balanced(m', r)
  {
    hide Balanced, Distinct, Height, Nodes, Br;
    DoubleDistinct(sign, d, B, f, E, g, A, r);
    SameBalance(m, m', d);
    SameBalance(m, m', f);
    SameBalance(m, m', g);
    SameBalance(m, m', r);
  }

  /** The tree a double rotation leaves is balanced again and has the height of the subtree
      that was too high. Insertion and deletion both use it. */
  lemma DoubleBalanced(m: Mem, m': Mem, sign: int,
                       d: Tree, B: Node, f: Tree, E: Node, g: Tree, A: Node, r: Tree)
    requires sign == 1 || sign == -1
    requires Distinct(Br(sign, Br(sign, d, B, Br(sign, f, E, g)), A, r))
    requires Balanced(m, Br(sign, d, B, Br(sign, f, E, g))) && Balanced(m, r)
    requires B in m && m[B].balance == -sign && E in m
    requires Height(Br(sign, d, B, Br(sign, f, E, g))) == Height(r) + 2
    requires DoubleBalances(m, m', A, B, E, -sign)
    ensures var t' := Br(sign, Br(sign, d, B, f), E, Br(sign, g, A, r));
            Balanced(m', t') && Height(t') == Height(r) + 2
  {
    hide Balanced, Distinct, Height, Nodes, Br;
    BrBalanced(m, sign, d, B, Br(sign, f, E, g));
    BrBalanced(m, sign, f, E, g);
    DoubleHeights(sign, Height(d), Height(f), Height(g), Height(r), m[E].balance);
    DoubleUntouched(m, m', sign, d, B, f, E, g, A, r);
    BrBalanced(m', sign, d, B, f);
    BrBalanced(m', sign, g, A, r);
    BrBalanced(m', sign, Br(sign, d, B, f), E, Br(sign, g, A, r));
  }

  /** Case 4: B leans against A; a double rotation restores the old height. */
  lemma GrowthDouble(h: Heap, m: Mem, c: Ctx, sign: int,
                     d: Tree, B: Node, f: Tree, E: Node, g: Tree, A: Node, r: Tree)
    requires Grown(h, c, sign, Br(sign, d, B, Br(sign, f, E, g)), A, r)
    requires h.mem[A].balance == sign && B in h.mem && h.mem[B].balance == -sign && E in h.mem
    requires DoubleBalances(h.mem, m, A, B, E, -sign)
    ensures var t' := Br(sign, Br(sign, d, B, f), E, Br(sign, g, A, r));
            Balanced(m, t') && CtxBalanced(m, c, Height(t'))
  {
    hide Balanced, CtxBalanced, Linked, CtxLinked, Distinct, CtxDistinct, Height, Nodes, CtxNodes, Br;
    var t := Br(sign, d, B, Br(sign, f, E, g));
    DoubleBalanced(h.mem, m, sign, d, B, f, E, g, A, r);
    DoubleDistinct(sign, d, B, f, E, g, A, r);
    SameCtxBalance(h.mem, m, c, 1 + Max(Height(t) - 1, Height(r)));
  }
}
