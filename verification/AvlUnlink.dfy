/** Taking a node out of the tree: directly when it lacks a child, and otherwise by putting
    its in-order successor, the least node of its right subtree, in its place. */
module AvlUnlink {
  import opened AvlShape
  import opened AvlRotate
  import opened AvlBalance
  import opened AvlSearch
  import opened Keys

  // ----- the least node of a tree -----

  /** The subtree whose root is the least node. */
  ghost function MinTree(t: Tree): (s: Tree)
    requires t.Branch?
    ensures s.Branch? && s.left.Leaf?
  {
    if t.left.Leaf? then t else MinTree(t.left)
  }

  /** The node that has the least one as its left child. */
  ghost function MinParent(t: Tree): Node
    requires t.Branch? && t.left.Branch?
  {
    if t.left.left.Leaf? then t.node else MinParent(t.left)
  }

  ghost function RemoveMin(t: Tree): Tree
    requires t.Branch?
  {
    if t.left.Leaf? then t.right else Branch(RemoveMin(t.left), t.node, t.right)
  }

  /** The path from `base` down the left spine of `t` to the least node. */
  ghost function Spine(t: Tree, base: Ctx): Ctx
    requires t.Branch?
  {
    if t.left.Leaf? then base else Spine(t.left, InLeft(base, t.node, t.right))
  }

  lemma {:induction false} SpinePlug(t: Tree, base: Ctx)
    requires t.Branch?
    ensures Plug(Spine(t, base), MinTree(t).right) == Plug(base, RemoveMin(t))
    ensures t.left.Leaf? ==> Spine(t, base) == base
    ensures t.left.Branch? ==> Spine(t, base).InLeft? && Spine(t, base).node == MinParent(t)
  {
    if t.left.Branch? { SpinePlug(t.left, InLeft(base, t.node, t.right)); }
  }

  lemma {:induction false} MinFacts(t: Tree)
    requires t.Branch? && Distinct(t)
    ensures MinTree(t).node !in Nodes(RemoveMin(t))
    ensures MinTree(t).node in Nodes(t) && Distinct(RemoveMin(t)) && Distinct(MinTree(t).right)
    ensures Nodes(RemoveMin(t)) == Nodes(t) - {MinTree(t).node}
    ensures Nodes(MinTree(t).right) <= Nodes(RemoveMin(t))
    ensures InOrder(t) == [MinTree(t).node] + InOrder(RemoveMin(t))
    ensures t.left.Branch? ==>
              && MinTree(t).node in Nodes(t.left) && MinParent(t) in Nodes(t) && MinParent(t) != MinTree(t).node
              && Nodes(MinTree(t).right) <= Nodes(t.left) && MinParent(t) !in Nodes(MinTree(t).right)
              && MinTree(t).node !in Nodes(MinTree(t).right)
  {
    if t.left.Branch? {
      MinFacts(t.left);
      assert [MinTree(t).node] + InOrder(RemoveMin(t.left)) + [t.node] + InOrder(t.right)
          == [MinTree(t).node] + (InOrder(RemoveMin(t.left)) + [t.node] + InOrder(t.right));
    } else {
      assert InOrder(t) == [t.node] + InOrder(t.right);
    }
  }

  /** The balance factors down the spine, when the one of the least node no longer counts. */
  lemma {:induction false} SpineBalanced(m: Mem, m': Mem, t: Tree, base: Ctx)
    requires t.Branch? && Distinct(t) && Balanced(m, t) && CtxBalanced(m', base, Height(t))
    requires forall n :: n in m && n in Nodes(t) && n != MinTree(t).node ==> n in m' && m'[n].balance == m[n].balance
    ensures CtxBalanced(m', Spine(t, base), Height(MinTree(t)))
    ensures Balanced(m', MinTree(t).right)
    ensures Height(MinTree(t)) == Height(MinTree(t).right) + 1
  {
    MinFacts(t);
    SpineStep(m, m', t, base);
    if t.left.Branch? {
      hide Balanced, CtxBalanced, Height, Distinct, Nodes;
      SpineBalanced(m, m', t.left, InLeft(base, t.node, t.right));
    }
  }

  /** One node of the spine. */
  lemma SpineStep(m: Mem, m': Mem, t: Tree, base: Ctx)
    requires t.Branch? && Distinct(t) && Balanced(m, t) && CtxBalanced(m', base, Height(t))
    requires forall n :: n in m && n in Nodes(t) && n != MinTree(t).node ==> n in m' && m'[n].balance == m[n].balance
    ensures t.left.Branch? ==>
      Distinct(t.left) && Balanced(m, t.left) && CtxBalanced(m', InLeft(base, t.node, t.right), Height(t.left))
    ensures t.left.Branch? ==>
      forall n :: n in m && n in Nodes(t.left) && n != MinTree(t.left).node ==> n in m' && m'[n].balance == m[n].balance
    ensures t.left.Leaf? ==> Balanced(m', t.right) && Height(t) == Height(t.right) + 1
  {
    SpineParts(t);
    BranchFacts(m, t);
    hide Distinct, Nodes, MinTree, Balanced, CtxBalanced, Height;
    SameBalance(m, m', t.right);
    if t.left.Branch? { SpineDown(m', t, base); }
  }

  lemma SpineDown(m: Mem, t: Tree, base: Ctx)
    requires t.Branch? && Balanced(m, t.right) && CtxBalanced(m, base, Height(t))
    requires t.node in m && -1 <= m[t.node].balance <= 1 && m[t.node].balance == Height(t.right) - Height(t.left)
    ensures CtxBalanced(m, InLeft(base, t.node, t.right), Height(t.left))
  {
    hide Balanced;
  }

  lemma SpineParts(t: Tree)
    requires t.Branch? && Distinct(t)
    ensures Nodes(t.right) <= Nodes(t) && MinTree(t).node !in Nodes(t.right)
    ensures t.left.Branch? ==>
      && Distinct(t.left) && Nodes(t.left) <= Nodes(t) && MinTree(t) == MinTree(t.left)
      && t.node in Nodes(t) && MinTree(t).node != t.node
  {
    if t.left.Branch? { MinFacts(t.left); }
    hide RemoveMin, InOrder;
  }

  /** The links of a tree whose least node has been bypassed and whose root hangs below `q`. */
  lemma {:induction false} SpineLinked(m: Mem, m': Mem, t: Tree, p: Node?, q: Node?)
    requires t.Branch? && t.left.Branch? && Linked(m, t, p) && Distinct(t)
    requires var Q, B := MinParent(t), MinTree(t).right;
             && Q in m && Q in m'
             && m'[Q] == m[Q].(left := Root(B), parent := if Q == t.node then q else m[Q].parent)
             && (B.Branch? ==> B.node in m && B.node in m' && m'[B.node] == m[B.node].(parent := Q))
             && (Q != t.node ==> t.node in m' && m'[t.node] == m[t.node].(parent := q))
             && forall n :: n in m && n in Nodes(t) && n !in {MinTree(t).node, Q, t.node} && n != Root(B)
                            ==> n in m' && m'[n] == m[n]
    ensures Linked(m', RemoveMin(t), q)
  {
    MinFacts(t);
    MinFacts(t.left);
    LinkedFrame(m, m', t.right, t.node);
    if t.left.left.Leaf? {
      Rehang(m, m', t.left.right, t.left.node, t.node);
    } else {
      SpineLinked(m, m', t.left, t.node, t.node);
    }
  }

  // ----- putting the successor in the node's place -----

  /** The updates that put Y, the least node of the right subtree `r`, in the place of X, whose
      left child is Z; the parent's link apart. X keeps its own links. */
  ghost predicate Swapped(m: Mem, m': Mem, X: Node, Z: Node, r: Tree)
    requires r.Branch? && X in m && Z in m && Nodes(r) <= m.Keys
  {
    var Y, T := MinTree(r).node, r.node;
    && m'.Keys == m.Keys && Y in m
    && m'[Z] == m[Z].(parent := Y)
    && m'[Y] == Rec(Z, if r.left.Branch? then T else m[Y].right, m[X].parent, m[X].balance)
    && (r.left.Branch? ==> MinParent(r) in m && SpineCut(m, m', r, Y))
    && (forall n :: n in m && n != Z && n !in Nodes(r) ==> m'[n] == m[n])
    && (r.left.Leaf? ==> forall n :: n in Nodes(r) && n != Y ==> m'[n] == m[n])
  }

  /** What happens in the right subtree: the least node is bypassed, and the root is hung
      below `q`. */
  ghost predicate SpineCut(m: Mem, m': Mem, t: Tree, q: Node?)
    requires t.Branch? && t.left.Branch?
  {
    var Q, B := MinParent(t), MinTree(t).right;
    && Q in m && Q in m'
    && m'[Q] == m[Q].(left := Root(B), parent := if Q == t.node then q else m[Q].parent)
    && (B.Branch? ==> B.node in m && B.node in m' && m'[B.node] == m[B.node].(parent := Q))
    && (Q != t.node ==> t.node in m && t.node in m' && m'[t.node] == m[t.node].(parent := q))
    && forall n :: n in m && n in Nodes(t) && n !in {MinTree(t).node, Q, t.node} && n != Root(B)
                   ==> n in m' && m'[n] == m[n]
  }

  /** X has two children and is linked in below `p`. */
  ghost predicate TwoChildren(m: Mem, l: Tree, X: Node, r: Tree, p: Node?) {
    && l.Branch? && r.Branch? && Nodes(r) <= m.Keys && X in m && l.node in m
    && m[X] == Rec(l.node, r.node, p, m[X].balance)
    && X !in Nodes(r) && l.node !in Nodes(r) && X != l.node
    && Linked(m, r, X) && Distinct(r)
  }

  lemma TwoChildrenAt(h: Heap, c: Ctx, l: Tree, X: Node, r: Tree)
    requires l.Branch? && r.Branch? && At(h, c, Branch(l, X, r))
    ensures TwoChildren(h.mem, l, X, r, CtxParent(c))
    ensures CtxParent(c) != null ==> CtxParent(c) in h.mem
  {
    hide CtxDistinct, CtxNodes;
    if CtxParent(c) != null { CtxParentIn(h.mem, c, X); }
    LinkedNodes(h.mem, r, X);
    LinkedNodes(h.mem, l, X);
    assert l.node in Nodes(l);
  }

  lemma {:induction false} LinkedNodes(m: Mem, t: Tree, p: Node?)
    requires Linked(m, t, p)
    ensures Nodes(t) <= m.Keys
  {
    match t
    case Leaf =>
    case Branch(l, n, r) => LinkedNodes(m, l, n); LinkedNodes(m, r, n);
  }

  /** The nodes that the swap touches when the successor is deeper down, all different but for
      Q and T, which may be one. */
  ghost predicate FarSite(m: Mem, X: Node, Y: Node, Q: Node, Z: Node, T: Node, B: Node?) {
    && {X, Y, Q, Z, T} <= m.Keys && (B != null ==> B in m)
    && m[X].left == Z && m[X].right == T && m[Y].right == B
    && X !in {Y, Q, Z, T} && X != B && Y !in {Q, Z, T} && Y != B && Z !in {Q, T} && Z != B && B != Q && B != T
  }

  lemma FarSiteOf(m: Mem, l: Tree, X: Node, r: Tree, p: Node?)
    requires TwoChildren(m, l, X, r, p) && r.left.Branch?
    requires MinTree(r).node in m && m[MinTree(r).node].right == Root(MinTree(r).right)
    ensures FarSite(m, X, MinTree(r).node, MinParent(r), l.node, r.node, Root(MinTree(r).right))
  {
    MinFacts(r);
    hide MinTree, MinParent, RemoveMin, Linked;
    var B := MinTree(r).right;
    assert Root(B) != null ==> Root(B) in Nodes(B) && Root(B) in Nodes(r.left) && Root(B) in Nodes(r);
  }

  lemma FarSwapped(m: Mem, m': Mem, l: Tree, X: Node, r: Tree, p: Node?)
    requires TwoChildren(m, l, X, r, p) && r.left.Branch? && m'.Keys == m.Keys
    requires var Y, Q, Z, T, B := MinTree(r).node, MinParent(r), l.node, r.node, Root(MinTree(r).right);
             && FarSite(m, X, Y, Q, Z, T, B)
             && m'[Y] == Rec(Z, T, p, m[X].balance)
             && m'[Q] == m[Q].(left := B, parent := if Q == T then Y else m[Q].parent)
             && m'[Z] == m[Z].(parent := Y)
             && (T != Q ==> m'[T] == m[T].(parent := Y))
             && (B != null ==> m'[B] == m[B].(parent := Q))
             && forall n :: n in m && n !in {Y, Q, Z, T} && n != B ==> m'[n] == m[n]
    ensures Swapped(m, m', X, l.node, r)
  {
    MinFacts(r);
    hide MinTree, MinParent, RemoveMin, Linked;
  }

  lemma NearSwapped(m: Mem, m': Mem, l: Tree, X: Node, r: Tree, p: Node?)
    requires TwoChildren(m, l, X, r, p) && r.left.Leaf? && m'.Keys == m.Keys
    requires r.node in m && m'[r.node] == Rec(l.node, m[r.node].right, p, m[X].balance)
    requires m'[l.node] == m[l.node].(parent := r.node)
    requires forall n :: n in m && n != r.node && n != l.node ==> m'[n] == m[n]
    ensures Swapped(m, m', X, l.node, r)
  {
  }

  lemma SpineTop(m: Mem, r: Tree, p: Node?)
    requires r.Branch? && Linked(m, r, p)
    ensures r.node in m && (m[r.node].left != null <==> r.left.Branch?)
    ensures r.left.Leaf? ==> MinTree(r) == r
  {
  }

  lemma SwapDistinct(l: Tree, X: Node, r: Tree)
    requires Distinct(Branch(l, X, r)) && r.Branch?
    ensures var Y := MinTree(r).node;
            && Distinct(Branch(l, Y, RemoveMin(r))) && Y != X && Y !in Nodes(l) && Y in Nodes(r)
            && Nodes(Branch(l, Y, RemoveMin(r))) == Nodes(Branch(l, X, r)) - {X}
            && InOrder(Branch(l, Y, RemoveMin(r))) == InOrder(l) + InOrder(r)
  {
    hide Distinct, Nodes, MinTree, RemoveMin;
    BrView(map[], -1, l, X, r, null);
    MinFacts(r);
    var Y, rest := MinTree(r).node, RemoveMin(r);
    BrView(map[], -1, l, Y, rest, null);
    assert InOrder(l) + [Y] + InOrder(rest) == InOrder(l) + ([Y] + InOrder(rest));
  }

  lemma SwapBelow(m: Mem, m': Mem, l: Tree, X: Node, r: Tree, p: Node?)
    requires l.Branch? && r.Branch? && Linked(m, Branch(l, X, r), p) && Distinct(Branch(l, X, r))
    requires X in m && l.node in m && Nodes(r) <= m.Keys
    requires Swapped(m, m', X, l.node, r)
    ensures Linked(m', Branch(l, MinTree(r).node, RemoveMin(r)), p)
  {
    var Y := MinTree(r).node;
    MinFacts(r);
    Rehang(m, m', l, X, Y);
    if r.left.Branch? {
      SpineLinked(m, m', r, X, Y);
    } else {
      LinkedFrame(m, m', r.right, Y);
    }
    assert Root(RemoveMin(r)) == m'[Y].right;
  }

  lemma SwapShape(h: Heap, m: Mem, c: Ctx, l: Tree, X: Node, r: Tree)
    requires l.Branch? && r.Branch? && At(h, c, Branch(l, X, r))
    requires TwoChildren(h.mem, l, X, r, CtxParent(c))
    requires Swapped(h.mem, m, X, l.node, r)
    ensures CtxParent(c) != null ==> CtxParent(c) in m
    ensures var Y := MinTree(r).node;
            var h' := ReplaceChild(Heap(h.root, m), CtxParent(c), X, Y);
            && At(h', c, Branch(l, Y, RemoveMin(r))) && h'.mem.Keys == m.Keys
            && forall n :: n in m ==> h'.mem[n].balance == m[n].balance
  {
    hide Linked, CtxLinked, Distinct, CtxDistinct, CtxNodes;
    var Y := MinTree(r).node;
    SwapBelow(h.mem, m, l, X, r, CtxParent(c));
    SwapDistinct(l, X, r);
    assert l.node in Nodes(l);
    CtxLinkedFrame(h.mem, m, c, X);
    Splice(h.root, m, c, X, Branch(l, Y, RemoveMin(r)));
  }

  lemma SwappedBalances(m: Mem, m': Mem, X: Node, l: Tree, r: Tree, p: Node?)
    requires TwoChildren(m, l, X, r, p) && Swapped(m, m', X, l.node, r)
    ensures m'.Keys == m.Keys && m[X].parent == p
    ensures X in m && MinTree(r).node in m && m'[MinTree(r).node].balance == m[X].balance
    ensures forall n :: n in m && n != MinTree(r).node ==> m'[n].balance == m[n].balance
  {
  }

  /** After the swap the path from where Y was is off by exactly one. */
  lemma SwapBalanced(m: Mem, m': Mem, c: Ctx, l: Tree, X: Node, r: Tree)
    requires l.Branch? && r.Branch? && Distinct(Branch(l, X, r)) && CtxDistinct(c)
    requires Nodes(Branch(l, X, r)) !! CtxNodes(c)
    requires Balanced(m, Branch(l, X, r)) && CtxBalanced(m, c, Height(Branch(l, X, r)))
    requires var Y := MinTree(r).node; Y in m' && m'[Y].balance == m[X].balance
    requires forall n :: n in m && n != MinTree(r).node ==> n in m' && m'[n].balance == m[n].balance
    ensures var Y, B := MinTree(r).node, MinTree(r).right;
            && CtxBalanced(m', Spine(r, InRight(c, l, Y)), Height(B) + 1)
            && Balanced(m', B)
  {
    hide MinTree, RemoveMin, Spine, Balanced, CtxBalanced, Height, Distinct, CtxDistinct, Nodes, CtxNodes;
    var Y := MinTree(r).node;
    SwapApart(c, l, X, r);
    BranchBalance(m, l, X, r);
    SameBalance(m, m', l);
    SameCtxBalance(m, m', c, Height(Branch(l, X, r)));
    RightBalance(m', c, l, Y, r);
    SpineBalanced(m, m', r, InRight(c, l, Y));
  }

  /** The least node of the right subtree is neither on the left nor above. */
  lemma SwapApart(c: Ctx, l: Tree, X: Node, r: Tree)
    requires r.Branch? && Distinct(Branch(l, X, r)) && Nodes(Branch(l, X, r)) !! CtxNodes(c)
    ensures var Y := MinTree(r).node; Y !in Nodes(l) && Y !in CtxNodes(c) && Y != X
    ensures Distinct(r)
  {
    hide MinTree, RemoveMin;
    MinFacts(r);
  }

  lemma BranchBalance(m: Mem, l: Tree, X: Node, r: Tree)
    requires Balanced(m, Branch(l, X, r))
    ensures Balanced(m, l) && Balanced(m, r) && X in m && m[X].balance == Height(r) - Height(l)
    ensures -1 <= m[X].balance <= 1 && Height(Branch(l, X, r)) == 1 + Max(Height(l), Height(r))
  {
  }

  lemma RightBalance(m: Mem, c: Ctx, l: Tree, Y: Node, r: Tree)
    requires Y in m && m[Y].balance == Height(r) - Height(l) && -1 <= m[Y].balance <= 1
    requires Balanced(m, l) && CtxBalanced(m, c, 1 + Max(Height(l), Height(r)))
    ensures CtxBalanced(m, InRight(c, l, Y), Height(r))
  {
  }

  /** From the place of X to the place that Y has left. */
  lemma SwapPlace(h: Heap, c: Ctx, l: Tree, r: Tree)
    requires r.Branch?
    requires At(h, c, Branch(l, MinTree(r).node, RemoveMin(r)))
    ensures var Y, B := MinTree(r).node, MinTree(r).right;
            var d := Spine(r, InRight(c, l, Y));
            && At(h, d, B) && Plug(d, B) == Plug(c, Branch(l, Y, RemoveMin(r)))
  {
    hide Linked, CtxLinked, Distinct, CtxDistinct, Nodes, CtxNodes, At;
    var Y, B := MinTree(r).node, MinTree(r).right;
    SpinePlug(r, InRight(c, l, Y));
    AtPlug(h, c, Branch(l, Y, RemoveMin(r)));
    AtPlug(h, Spine(r, InRight(c, l, Y)), B);
  }

  // ----- dropping the node from memory -----

  lemma AtFrame(h: Heap, m: Mem, c: Ctx, t: Tree)
    requires At(h, c, t) && SameOn(h.mem, m, Nodes(t)) && SameOn(h.mem, m, CtxNodes(c))
    ensures At(Heap(h.root, m), c, t)
  {
    hide Linked, CtxLinked, Distinct, CtxDistinct, Nodes, CtxNodes;
    LinkedFrame(h.mem, m, t, CtxParent(c));
    CtxLinkedFrame(h.mem, m, c, Root(t));
  }

  lemma AtDistinct(h: Heap, c: Ctx, t: Tree)
    requires At(h, c, t)
    ensures Distinct(t) && CtxDistinct(c) && Nodes(t) !! CtxNodes(c)
    ensures Nodes(t) <= h.mem.Keys && CtxNodes(c) <= h.mem.Keys
  {
    hide Linked, CtxLinked, Distinct, CtxDistinct, Nodes, CtxNodes;
    LinkedNodes(h.mem, t, CtxParent(c));
    CtxLinkedNodes(h.mem, c, Root(t));
  }

  lemma {:induction false} CtxLinkedNodes(m: Mem, c: Ctx, hole: Node?)
    requires CtxLinked(m, c, hole)
    ensures CtxNodes(c) <= m.Keys
  {
    hide Linked, Nodes;
    match c
    case Top =>
    case InLeft(up, n, r) => LinkedNodes(m, r, n); CtxLinkedNodes(m, up, n);
    case InRight(up, l, n) => LinkedNodes(m, l, n); CtxLinkedNodes(m, up, n);
  }

  /** Forgetting a node that is no longer in the tree. */
  lemma DropNode(h: Heap, d: Ctx, b: Tree, X: Node)
    requires At(h, d, b) && Balanced(h.mem, b) && CtxBalanced(h.mem, d, Height(b) + 1)
    requires X !in Nodes(b) && X !in CtxNodes(d)
    ensures var h' := h.(mem := h.mem - {X});
            At(h', d, b) && Balanced(h'.mem, b) && CtxBalanced(h'.mem, d, Height(b) + 1)
  {
    hide At, Balanced, CtxBalanced, Nodes, CtxNodes, Height;
    var m := h.mem - {X};
    AtFrame(h, m, d, b);
    SameBalance(h.mem, m, b);
    SameCtxBalance(h.mem, m, d, Height(b) + 1);
  }

  /** What the swap leaves, seen from the place the successor came from. */
  lemma SwapDone(h: Heap, h': Heap, c: Ctx, s: Tree)
    requires At(h, c, s) && s.Branch? && s.left.Branch? && s.right.Branch?
    requires Balanced(h.mem, s) && CtxBalanced(h.mem, c, Height(s))
    requires At(h', c, Branch(s.left, MinTree(s.right).node, RemoveMin(s.right)))
    requires s.node in h.mem && MinTree(s.right).node in h'.mem
    requires h'.mem[MinTree(s.right).node].balance == h.mem[s.node].balance
    requires forall n :: n in h.mem && n != MinTree(s.right).node ==> n in h'.mem && h'.mem[n].balance == h.mem[n].balance
    ensures var Y, b := MinTree(s.right).node, MinTree(s.right).right;
            var d := Spine(s.right, InRight(c, s.left, Y));
            var m := h'.mem - {s.node};
            && At(h'.(mem := m), d, b) && Balanced(m, b) && CtxBalanced(m, d, Height(b) + 1)
            && InOrder(Plug(d, b)) == Before(c) + (InOrder(s.left) + InOrder(s.right)) + After(c)
            && !d.Top? && (d.InLeft? <==> s.right.left.Branch?)
            && d.node == (if s.right.left.Branch? then MinParent(s.right) else Y)
  {
    hide At, Balanced, CtxBalanced, MinTree, RemoveMin, MinParent, Spine, Height, Plug, InOrder, Nodes, Distinct;
    var l, X, r := s.left, s.node, s.right;
    var Y := MinTree(r).node;
    AtDistinct(h, c, s);
    SwapBalanced(h.mem, h'.mem, c, l, X, r);
    SwapPlace(h', c, l, r);
    SpinePlug(r, InRight(c, l, Y));
    SwapDistinct(l, X, r);
    InOrderPlug(c, Branch(l, Y, RemoveMin(r)));
    var d, b := Spine(r, InRight(c, l, Y)), MinTree(r).right;
    NodesPlug(d, b);
    NodesPlug(c, Branch(l, Y, RemoveMin(r)));
    assert X in Nodes(s);
    DropNode(h', d, b, X);
  }

  // ----- a node without a left or without a right child -----

  /** X sits at the end of `c` and has at most the one child `ch`. */
  ghost predicate BypassSite(m: Mem, c: Ctx, X: Node, ch: Node?) {
    && X in m && m[X].parent == CtxParent(c) && X != CtxParent(c)
    && (m[X].left == ch || m[X].left == null) && (m[X].right == ch || m[X].right == null)
    && (ch != null ==> (m[X].left == ch || m[X].right == ch) && ch in m && ch != X && ch != CtxParent(c))
    && (!c.Top? ==> c.node in m && (m[c.node].left == X <==> c.InLeft?))
  }

  /** The child takes the node's place. */
  ghost predicate Bypassed(h: Heap, h': Heap, c: Ctx, ch: Node?)
    requires (!c.Top? ==> c.node in h.mem) && (ch != null ==> ch in h.mem)
  {
    && h'.root == (if c.Top? then ch else h.root)
    && h'.mem.Keys == h.mem.Keys
    && (!c.Top? ==> h'.mem[c.node] == SetChild(h.mem, c.node, CtxSign(c), ch)[c.node])
    && (ch != null ==> h'.mem[ch] == h.mem[ch].(parent := CtxParent(c)))
    && forall n :: n in h.mem && n != CtxParent(c) && n != ch ==> h'.mem[n] == h.mem[n]
  }

  lemma BypassSiteAt(h: Heap, c: Ctx, s: Tree, ch: Tree)
    requires At(h, c, s) && s.Branch? && (s.left.Leaf? || s.right.Leaf?)
    requires ch == if s.left.Branch? then s.left else s.right
    ensures BypassSite(h.mem, c, s.node, Root(ch))
  {
    hide Linked, Distinct, CtxDistinct;
    AtDistinct(h, c, s);
    LinkedChildren(h.mem, s, CtxParent(c));
    assert s.node in Nodes(s) && (!c.Top? ==> c.node in CtxNodes(c));
    assert Root(ch) != null ==> Root(ch) in Nodes(ch) && Root(ch) in Nodes(s);
    assert s.node !in Nodes(ch) by { DistinctRoot(s); }
  }

  lemma DistinctRoot(s: Tree)
    requires s.Branch? && Distinct(s)
    ensures s.node !in Nodes(s.left) && s.node !in Nodes(s.right)
  {
  }

  lemma LinkedChildren(m: Mem, s: Tree, p: Node?)
    requires Linked(m, s, p) && s.Branch?
    ensures s.node in m && m[s.node].left == Root(s.left) && m[s.node].right == Root(s.right) && m[s.node].parent == p
  {
  }

  lemma BypassShape(h: Heap, h': Heap, c: Ctx, s: Tree, ch: Tree)
    requires At(h, c, s) && s.Branch? && (s.left.Leaf? || s.right.Leaf?)
    requires ch == if s.left.Branch? then s.left else s.right
    requires BypassSite(h.mem, c, s.node, Root(ch)) && Bypassed(h, h', c, Root(ch))
    ensures At(h', c, ch)
  {
    hide CtxLinked, CtxDistinct, CtxNodes, BypassSite;
    assert Linked(h.mem, ch, s.node) && Distinct(ch) && Nodes(ch) <= Nodes(s) && s.node in Nodes(s);
    assert Root(ch) != null ==> Root(ch) in Nodes(ch);
    assert !c.Top? ==> c.node in CtxNodes(c);
    hide Linked, Distinct, Nodes;
    RelinkHole(h.mem, h'.mem, c, s.node, Root(ch));
    Rehang(h.mem, h'.mem, ch, s.node, CtxParent(c));
    RootFixed(c, s.node, Root(ch));
  }

  lemma BypassGone(h: Heap, c: Ctx, s: Tree, ch: Tree)
    requires At(h, c, s) && s.Branch? && (s.left.Leaf? || s.right.Leaf?)
    requires ch == if s.left.Branch? then s.left else s.right
    ensures s.node !in Nodes(ch) && s.node !in CtxNodes(c)
  {
    hide Linked, CtxLinked;
  }

  lemma BypassOrder(c: Ctx, s: Tree, ch: Tree)
    requires s.Branch? && (s.left.Leaf? || s.right.Leaf?)
    requires ch == if s.left.Branch? then s.left else s.right
    ensures InOrder(Plug(c, ch)) == Before(c) + (InOrder(s.left) + InOrder(s.right)) + After(c)
  {
    InOrderPlug(c, ch);
    assert InOrder(ch) == InOrder(s.left) + InOrder(s.right);
  }

  lemma {:induction false} RootFixed(c: Ctx, a: Node?, b: Node?)
    ensures !c.Top? ==> CtxRoot(c, a) == CtxRoot(c, b)
  {
  }

  lemma BypassBalanced(h: Heap, h': Heap, c: Ctx, s: Tree, ch: Tree)
    requires At(h, c, s) && s.Branch? && (s.left.Leaf? || s.right.Leaf?)
    requires ch == if s.left.Branch? then s.left else s.right
    requires Balanced(h.mem, s) && CtxBalanced(h.mem, c, Height(s))
    requires BypassSite(h.mem, c, s.node, Root(ch)) && Bypassed(h, h', c, Root(ch))
    ensures Balanced(h'.mem, ch) && CtxBalanced(h'.mem, c, Height(ch) + 1)
  {
    hide At, CtxBalanced;
    assert Balanced(h.mem, ch) && Height(s) == Height(ch) + 1;
    hide Balanced, Height;
    SameBalance(h.mem, h'.mem, ch);
    SameCtxBalance(h.mem, h'.mem, c, Height(s));
  }

  // ----- finding a node's place -----

  lemma {:induction false} FindPlace(t: Tree, n: Node, base: Ctx) returns (c: Ctx, s: Tree)
    requires n in Nodes(t)
    ensures s.Branch? && s.node == n && Plug(c, s) == Plug(base, t)
  {
    if t.node == n {
      c, s := base, t;
    } else if n in Nodes(t.left) {
      c, s := FindPlace(t.left, n, InLeft(base, t.node, t.right));
    } else {
      c, s := FindPlace(t.right, n, InRight(base, t.left, t.node));
    }
  }

  lemma PlaceAt(h: Heap, t: Tree, c: Ctx, s: Tree)
    requires At(h, Top, t) && Balanced(h.mem, t) && s.Branch? && Plug(c, s) == Plug(Top, t)
    ensures At(h, c, s) && Balanced(h.mem, s) && CtxBalanced(h.mem, c, Height(s))
    ensures Plug(c, s) == t
    ensures s.node in h.mem && h.mem[s.node].left == Root(s.left) && h.mem[s.node].right == Root(s.right)
  {
    hide At, Balanced, CtxBalanced, Height;
    assert Plug(c, s) == t;
    AtPlug(h, c, s);
    BalancedPlug(h.mem, c, s);
    AtChildren(h, c, s);
  }

  lemma AtChildren(h: Heap, c: Ctx, s: Tree)
    requires At(h, c, s) && s.Branch?
    ensures s.node in h.mem && h.mem[s.node].left == Root(s.left) && h.mem[s.node].right == Root(s.right)
  {
    hide Distinct, CtxDistinct, CtxLinked;
  }

  /** Removing one element leaves a sorted sequence of the other nodes. */
  lemma Removed(t: Tree, t': Tree, c: Ctx, s: Tree)
    requires s.Branch? && Plug(c, s) == t && Sorted(InOrder(t))
    requires InOrder(t') == Before(c) + (InOrder(s.left) + InOrder(s.right)) + After(c)
    ensures var i := |Before(c)| + |InOrder(s.left)|;
            && i < |InOrder(t)| && InOrder(t)[i] == s.node
            && InOrder(t') == InOrder(t)[..i] + InOrder(t)[i + 1..]
    ensures Sorted(InOrder(t')) && Nodes(t') == Nodes(t) - {s.node}
  {
    hide *;
    InOrderBranch(s);
    InOrderElems(t);
    InOrderElems(t');
    InOrderPlug(c, s);
    DropMiddle(InOrder(t), InOrder(t'), Before(c), InOrder(s.left), s.node, InOrder(s.right), After(c));
  }

  lemma InOrderBranch(s: Tree)
    requires s.Branch?
    ensures InOrder(s) == InOrder(s.left) + [s.node] + InOrder(s.right)
  {
  }

  lemma DropMiddle(s: seq<Node>, s': seq<Node>, b: seq<Node>, l: seq<Node>, n: Node, r: seq<Node>, a: seq<Node>)
    requires s == b + (l + [n] + r) + a && s' == b + (l + r) + a && Sorted(s)
    ensures var i := |b| + |l|; i < |s| && s[i] == n && s' == s[..i] + s[i + 1..]
    ensures Sorted(s') && Elems(s') == Elems(s) - {n}
  {
    hide Sorted, Elems;
    assert s == (b + l) + [n] + (r + a) && s' == (b + l) + (r + a);
    DropSorted(b + l, n, r + a);
  }

  lemma DropSorted(x: seq<Node>, n: Node, y: seq<Node>)
    requires Sorted(x + [n] + y)
    ensures Sorted(x + y) && Elems(x + y) == Elems(x + [n] + y) - {n}
  {
    var s, r := x + [n] + y, x + y;
    forall i, j | 0 <= i < j < |r| ensures Compare(r[i].key, r[j].key) < 0 {
      var i', j' := if i < |x| then i else i + 1, if j < |x| then j else j + 1;
      assert s[i'] == r[i] && s[j'] == r[j];
    }
    forall i | 0 <= i < |s| && i != |x| ensures s[i] != n {
      CompareIsTotalOrder(n.key, n.key, n.key);
      assert s[|x|] == n;
    }
    assert forall k :: 0 <= k < |r| ==> r[k] == s[if k < |x| then k else k + 1];
  }
}
