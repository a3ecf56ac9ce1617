/** The pointer surgery of the AVL tree: replacing a child, and single and double rotation,
    as functions on a snapshot, with what they do to the tree the snapshot is linked into. */
module AvlRotate {
  import opened AvlShape

  /** The root pointer and the fields of the nodes. */
  datatype Heap = Heap(root: Node?, mem: Mem)

  /** A subtree seen from one side: `x` is the child on side `sign`, `y` the other one. */
  function Br(sign: int, x: Tree, n: Node, y: Tree): Tree {
    if sign < 0 then Branch(x, n, y) else Branch(y, n, x)
  }

  function Child(r: Rec, sign: int): Node? {
    if sign < 0 then r.left else r.right
  }

  lemma BrView(m: Mem, sign: int, x: Tree, n: Node, y: Tree, p: Node?)
    requires sign != 0
    ensures Root(Br(sign, x, n, y)) == n
    ensures Nodes(Br(sign, x, n, y)) == Nodes(x) + {n} + Nodes(y)
    ensures Linked(m, Br(sign, x, n, y), p) <==>
            && n in m && Child(m[n], sign) == Root(x) && Child(m[n], -sign) == Root(y) && m[n].parent == p
            && Linked(m, x, n) && Linked(m, y, n)
    ensures Distinct(Br(sign, x, n, y)) <==>
            n !in Nodes(x) && n !in Nodes(y) && Nodes(x) !! Nodes(y) && Distinct(x) && Distinct(y)
  {
  }

  function SetChild(m: Mem, n: Node, sign: int, child: Node?): (r: Mem)
    requires n in m
    ensures r.Keys == m.Keys
  {
    m[n := if sign < 0 then m[n].(left := child) else m[n].(right := child)]
  }

  function SetBalance(m: Mem, n: Node, b: int): (r: Mem)
    requires n in m
    ensures r.Keys == m.Keys
  {
    m[n := m[n].(balance := b)]
  }

  function ReplaceChild(h: Heap, parent: Node?, oldChild: Node, newChild: Node?): Heap
    requires parent != null ==> parent in h.mem
  {
    if parent == null then h.(root := newChild)
    else h.(mem := SetChild(h.mem, parent, if oldChild == h.mem[parent].left then -1 else 1, newChild))
  }

  /** `t` is the subtree at the place that `c` leads to, and everything is linked. */
  ghost predicate At(h: Heap, c: Ctx, t: Tree) {
    && h.root == CtxRoot(c, Root(t))
    && Linked(h.mem, t, CtxParent(c)) && CtxLinked(h.mem, c, Root(t))
    && Distinct(t) && CtxDistinct(c) && Nodes(t) !! CtxNodes(c)
  }

  lemma AtParts(h: Heap, c: Ctx, sign: int, t: Tree, A: Node, r: Tree)
    requires sign != 0 && At(h, c, Br(sign, t, A, r))
    ensures Linked(h.mem, Br(sign, t, A, r), CtxParent(c)) && CtxLinked(h.mem, c, A) && h.root == CtxRoot(c, A)
    ensures Distinct(Br(sign, t, A, r)) && CtxDistinct(c) && Nodes(Br(sign, t, A, r)) !! CtxNodes(c)
    ensures A in h.mem && h.mem[A].parent == CtxParent(c) && (CtxParent(c) != null ==> CtxParent(c) in h.mem)
    ensures Child(h.mem[A], sign) == Root(t) && Child(h.mem[A], -sign) == Root(r)
    ensures A !in Nodes(t) && A !in Nodes(r)
  {
    hide Linked, Distinct, Nodes, CtxDistinct, CtxNodes, Br;
    BrView(h.mem, sign, t, A, r, CtxParent(c));
    if CtxParent(c) != null { CtxParentIn(h.mem, c, A); }
  }

  lemma CtxParentIn(m: Mem, c: Ctx, hole: Node?)
    requires CtxLinked(m, c, hole) && CtxParent(c) != null
    ensures CtxParent(c) in m
  {
  }

  lemma AtPlug(h: Heap, c: Ctx, t: Tree)
    ensures At(h, c, t) <==> At(h, Top, Plug(c, t))
  {
    LinkedPlug(h.mem, c, t);
    DistinctPlug(c, t);
    NodesPlug(c, t);
  }

  /** Redirecting the link of the parent: everything below it is for the caller to relink. */
  lemma Relink(h: Heap, c: Ctx, old': Node, new': Node?)
    requires CtxLinked(h.mem, c, old') && CtxDistinct(c) && old' !in CtxNodes(c)
    requires h.root == CtxRoot(c, old')
    ensures CtxParent(c) != null ==> CtxParent(c) in h.mem
    ensures var h' := ReplaceChild(h, CtxParent(c), old', new');
            && CtxLinked(h'.mem, c, new') && h'.root == CtxRoot(c, new')
            && h'.mem.Keys == h.mem.Keys
            && (forall n :: n in h.mem && n !in CtxNodes(c) ==> h'.mem[n] == h.mem[n])
            && (forall n :: n in h.mem ==> h'.mem[n].balance == h.mem[n].balance)
  {
    var h' := ReplaceChild(h, CtxParent(c), old', new');
    match c
    case Top =>
    case InLeft(up, n, r) => LinkedFrame(h.mem, h'.mem, r, n); CtxLinkedFrame(h.mem, h'.mem, up, n);
    case InRight(up, l, n) => LinkedFrame(h.mem, h'.mem, l, n); CtxLinkedFrame(h.mem, h'.mem, up, n);
  }

  lemma RelinkHole(m: Mem, m': Mem, c: Ctx, hole: Node?, hole': Node?)
    requires CtxLinked(m, c, hole) && CtxDistinct(c)
    requires !c.Top? ==> c.node in m' && c.node in m && m'[c.node] == SetChild(m, c.node, CtxSign(c), hole')[c.node]
    requires forall n :: n in m && n in CtxNodes(c) && n != CtxParent(c) ==> n in m' && m'[n] == m[n]
    ensures CtxLinked(m', c, hole')
  {
    match c
    case Top =>
    case InLeft(up, n, r) => LinkedFrame(m, m', r, n); CtxLinkedFrame(m, m', up, n);
    case InRight(up, l, n) => LinkedFrame(m, m', l, n); CtxLinkedFrame(m, m', up, n);
  }

  /** A, its child B on the side away from `sign`, and B's child E on side `sign`. */
  ghost predicate RotateSite(m: Mem, A: Node, B: Node, E: Node?, sign: int) {
    && A in m && B in m && A != B
    && Child(m[A], -sign) == B && Child(m[B], sign) == E
    && (E != null ==> E in m && E != A && E != B)
  }

  /** The pointer updates of a single rotation about A, the parent's link apart:
      B and A trade places, and the subtree between them, with root E, changes sides. */
  ghost predicate Rotated(m: Mem, m': Mem, A: Node, B: Node, E: Node?, sign: int)
    requires RotateSite(m, A, B, E, sign)
  {
    && m'.Keys == m.Keys
    && m'[A] == SetChild(m, A, -sign, E)[A].(parent := B)
    && m'[B] == SetChild(m, B, sign, A)[B].(parent := m[A].parent)
    && (E != null ==> m'[E] == m[E].(parent := A))
    && forall n :: n in m && n != A && n != B && n != E ==> m'[n] == m[n]
  }

  lemma RotatedFields(m: Mem, m': Mem, A: Node, B: Node, E: Node?, sign: int)
    requires sign == 1 || sign == -1
    requires RotateSite(m, A, B, E, sign)
    requires m'.Keys == m.Keys
    requires Child(m'[A], -sign) == E && Child(m'[A], sign) == Child(m[A], sign) && m'[A].parent == B
    requires Child(m'[B], sign) == A && Child(m'[B], -sign) == Child(m[B], -sign) && m'[B].parent == m[A].parent
    requires m'[A].balance == m[A].balance && m'[B].balance == m[B].balance
    requires E != null ==> m'[E] == m[E].(parent := A)
    requires forall n :: n in m && n != A && n != B && n != E ==> m'[n] == m[n]
    ensures Rotated(m, m', A, B, E, sign)
  {
  }

  /** Changing the parent of the root of a linked tree hangs it elsewhere. */
  lemma Rehang(m: Mem, m': Mem, t: Tree, q: Node?, p: Node?)
    requires Linked(m, t, q) && Distinct(t)
    requires forall n :: n in Nodes(t) && n in m && n != Root(t) ==> n in m' && m'[n] == m[n]
    requires t.Branch? ==> t.node in m' && m'[t.node] == m[t.node].(parent := p)
    ensures Linked(m', t, p)
  {
    if t.Branch? {
      LinkedFrame(m, m', t.left, t.node);
      LinkedFrame(m, m', t.right, t.node);
    }
  }

  /** A relinked subtree takes the place of the old one when the parent's link is redirected. */
  lemma Splice(root: Node?, m: Mem, c: Ctx, A: Node, t: Tree)
    requires Linked(m, t, CtxParent(c)) && CtxLinked(m, c, A) && root == CtxRoot(c, A)
    requires Distinct(t) && CtxDistinct(c) && Nodes(t) !! CtxNodes(c) && A !in CtxNodes(c)
    ensures CtxParent(c) != null ==> CtxParent(c) in m
    ensures var h := ReplaceChild(Heap(root, m), CtxParent(c), A, Root(t));
            && At(h, c, t) && h.mem.Keys == m.Keys
            && (forall n :: n in m ==> h.mem[n].balance == m[n].balance)
            && (forall n :: n in m && n !in CtxNodes(c) ==> h.mem[n] == m[n])
  {
    hide Linked, Distinct, CtxLinked, CtxDistinct;
    Relink(Heap(root, m), c, A, Root(t));
    var h := ReplaceChild(Heap(root, m), CtxParent(c), A, Root(t));
    LinkedFrame(m, h.mem, t, CtxParent(c));
  }

  lemma RotateDistinct(sign: int, d: Tree, B: Node, e: Tree, A: Node, r: Tree)
    requires sign != 0
    requires Distinct(Br(sign, Br(sign, d, B, e), A, r))
    ensures Distinct(Br(sign, d, B, Br(sign, e, A, r)))
    ensures Nodes(Br(sign, d, B, Br(sign, e, A, r))) == Nodes(Br(sign, Br(sign, d, B, e), A, r))
    ensures Nodes(Br(sign, Br(sign, d, B, e), A, r)) == Nodes(d) + {B} + Nodes(e) + {A} + Nodes(r)
    ensures A != B && {A, B} !! Nodes(d) && {A, B} !! Nodes(e) && {A, B} !! Nodes(r)
    ensures Nodes(e) !! Nodes(d) && Nodes(e) !! Nodes(r)
    ensures Distinct(e)
  {
  }

  lemma RotateParts(m: Mem, A: Node, sign: int, p: Node?, d: Tree, B: Node, e: Tree, r: Tree)
    requires sign == 1 || sign == -1
    requires Linked(m, Br(-sign, Br(-sign, d, B, e), A, r), p)
    requires Distinct(Br(-sign, Br(-sign, d, B, e), A, r))
    ensures RotateSite(m, A, B, Root(e), sign)
    ensures Child(m[A], sign) == Root(r) && m[A].parent == p && Child(m[B], -sign) == Root(d)
    ensures Linked(m, d, B) && Linked(m, e, B) && Linked(m, r, A)
  {
    hide Distinct, Br;
    RotateDistinct(-sign, d, B, e, A, r);
    BrView(m, -sign, Br(-sign, d, B, e), A, r, p);
    BrView(m, -sign, d, B, e, A);
  }

  /** What a rotation makes of the subtree, before the parent's link is redirected. */
  lemma RotateBelow(m: Mem, m': Mem, A: Node, sign: int, p: Node?, d: Tree, B: Node, e: Tree, r: Tree)
    requires sign == 1 || sign == -1
    requires Linked(m, Br(-sign, Br(-sign, d, B, e), A, r), p)
    requires Distinct(Br(-sign, Br(-sign, d, B, e), A, r))
    requires RotateSite(m, A, B, Root(e), sign)
    requires Rotated(m, m', A, B, Root(e), sign)
    ensures Linked(m', Br(-sign, d, B, Br(-sign, e, A, r)), p)
  {
    hide Linked, Distinct, Nodes;
    RotateParts(m, A, sign, p, d, B, e, r);
    RotateDistinct(-sign, d, B, e, A, r);
    Rehang(m, m', e, B, A);
    LinkedFrame(m, m', d, B);
    LinkedFrame(m, m', r, A);
    BrView(m', -sign, e, A, r, B);
    BrView(m', -sign, d, B, Br(-sign, e, A, r), p);
  }

  lemma RotateShape(h: Heap, m: Mem, A: Node, sign: int, c: Ctx, d: Tree, B: Node, e: Tree, r: Tree)
    requires sign == 1 || sign == -1
    requires At(h, c, Br(-sign, Br(-sign, d, B, e), A, r))
    requires RotateSite(h.mem, A, B, Root(e), sign)
    requires Rotated(h.mem, m, A, B, Root(e), sign)
    ensures CtxParent(c) != null ==> CtxParent(c) in m
    ensures var h' := ReplaceChild(Heap(h.root, m), CtxParent(c), A, B);
            && At(h', c, Br(-sign, d, B, Br(-sign, e, A, r))) && h'.mem.Keys == h.mem.Keys && {A, B} <= h.mem.Keys
            && (forall n :: n in h.mem ==> h'.mem[n].balance == h.mem[n].balance)
  {
    hide Linked, CtxLinked, Distinct, CtxDistinct, Nodes, CtxNodes;
    var t, t' := Br(-sign, Br(-sign, d, B, e), A, r), Br(-sign, d, B, Br(-sign, e, A, r));
    RotateBelow(h.mem, m, A, sign, CtxParent(c), d, B, e, r);
    RotateDistinct(-sign, d, B, e, A, r);
    assert Root(t) == A && Root(t') == B;
    assert A in Nodes(t) && B in Nodes(t) && (Root(e) != null ==> Root(e) in Nodes(e) && Root(e) in Nodes(t));
    CtxLinkedFrame(h.mem, m, c, A);
    Splice(h.root, m, c, A, t');
  }

  // ----- double rotation -----

  ghost predicate DoubleSite(m: Mem, A: Node, B: Node, E: Node, F: Node?, G: Node?, sign: int) {
    && {A, B, E} <= m.Keys && A != B && A != E && B != E
    && Child(m[A], -sign) == B && Child(m[B], sign) == E && Child(m[E], -sign) == F && Child(m[E], sign) == G
    && (F != null ==> F in m && F !in {A, B, E})
    && (G != null ==> G in m && G !in {A, B, E})
    && (F == G ==> F == null)
  }

  /** The updates of a double rotation, the parent's link apart: E rises above B and A, which
      take over its subtrees, with roots F and G; the balance factors follow from E's. */
  ghost predicate DoubleRotated(m: Mem, m': Mem, A: Node, B: Node, E: Node, F: Node?, G: Node?, sign: int)
    requires DoubleSite(m, A, B, E, F, G, sign)
  {
    var e := m[E].balance;
    && m'.Keys == m.Keys
    && m'[A] == SetChild(m, A, -sign, G)[A].(parent := E, balance := if sign * e >= 0 then 0 else -e)
    && m'[B] == SetChild(m, B, sign, F)[B].(parent := E, balance := if sign * e <= 0 then 0 else -e)
    && m'[E] == (if sign < 0 then Rec(A, B, m[A].parent, 0) else Rec(B, A, m[A].parent, 0))
    && (F != null ==> m'[F] == m[F].(parent := B))
    && (G != null ==> m'[G] == m[G].(parent := A))
    && forall n :: n in m && n != A && n != B && n != E && n != F && n != G ==> m'[n] == m[n]
  }

  lemma DoubleRotatedFields(m: Mem, m': Mem, A: Node, B: Node, E: Node, F: Node?, G: Node?, sign: int)
    requires sign == 1 || sign == -1
    requires DoubleSite(m, A, B, E, F, G, sign)
    requires m'.Keys == m.Keys
    requires Child(m'[A], -sign) == G && Child(m'[A], sign) == Child(m[A], sign) && m'[A].parent == E
    requires Child(m'[B], sign) == F && Child(m'[B], -sign) == Child(m[B], -sign) && m'[B].parent == E
    requires Child(m'[E], sign) == A && Child(m'[E], -sign) == B && m'[E].parent == m[A].parent
    requires m'[A].balance == if sign * m[E].balance >= 0 then 0 else -m[E].balance
    requires m'[B].balance == if sign * m[E].balance <= 0 then 0 else -m[E].balance
    requires m'[E].balance == 0
    requires F != null ==> m'[F] == m[F].(parent := B)
    requires G != null ==> m'[G] == m[G].(parent := A)
    requires forall n :: n in m && n != A && n != B && n != E && n != F && n != G ==> m'[n] == m[n]
    ensures DoubleRotated(m, m', A, B, E, F, G, sign)
  {
  }

  /** The balance factors a double rotation leaves. */
  ghost predicate DoubleBalances(m: Mem, m': Mem, A: Node, B: Node, E: Node, sign: int) {
    && m'.Keys == m.Keys && A in m && B in m && E in m
    && m'[A].balance == (if sign * m[E].balance >= 0 then 0 else -m[E].balance)
    && m'[B].balance == (if sign * m[E].balance <= 0 then 0 else -m[E].balance)
    && m'[E].balance == 0
    && forall n :: n in m && n !in {A, B, E} ==> m'[n].balance == m[n].balance
  }

  lemma DoubleRotatedBalances(m: Mem, m': Mem, m'': Mem, A: Node, B: Node, E: Node, F: Node?, G: Node?, sign: int)
    requires DoubleSite(m, A, B, E, F, G, sign)
    requires DoubleRotated(m, m', A, B, E, F, G, sign)
    requires m''.Keys == m'.Keys && forall n :: n in m' ==> m''[n].balance == m'[n].balance
    ensures DoubleBalances(m, m'', A, B, E, sign)
  {
  }

  lemma DoubleDistinct(sign: int, d: Tree, B: Node, f: Tree, E: Node, g: Tree, A: Node, r: Tree)
    requires sign != 0
    requires Distinct(Br(sign, Br(sign, d, B, Br(sign, f, E, g)), A, r))
    ensures Distinct(Br(sign, Br(sign, d, B, f), E, Br(sign, g, A, r)))
    ensures Nodes(Br(sign, Br(sign, d, B, f), E, Br(sign, g, A, r)))
         == Nodes(Br(sign, Br(sign, d, B, Br(sign, f, E, g)), A, r))
    ensures {A, B, E} + Nodes(f) + Nodes(g) <= Nodes(Br(sign, Br(sign, d, B, Br(sign, f, E, g)), A, r))
    ensures A != B && A != E && B != E
    ensures {A, B, E} !! Nodes(d) && {A, B, E} !! Nodes(f) && {A, B, E} !! Nodes(g) && {A, B, E} !! Nodes(r)
    ensures Nodes(f) !! Nodes(d) && Nodes(f) !! Nodes(g) && Nodes(f) !! Nodes(r)
    ensures Nodes(g) !! Nodes(d) && Nodes(g) !! Nodes(r)
    ensures Distinct(f) && Distinct(g)
  {
    hide Distinct, Nodes;
    var x := Br(sign, f, E, g);
    BrView(map[], sign, Br(sign, d, B, x), A, r, null);
    BrView(map[], sign, d, B, x, null);
    BrView(map[], sign, f, E, g, null);
    BrView(map[], sign, d, B, f, null);
    BrView(map[], sign, g, A, r, null);
    BrView(map[], sign, Br(sign, d, B, f), E, Br(sign, g, A, r), null);
  }

  lemma DoubleParts(m: Mem, sign: int, p: Node?, d: Tree, B: Node, f: Tree, E: Node, g: Tree, A: Node, r: Tree)
    requires sign == 1 || sign == -1
    requires Linked(m, Br(-sign, Br(-sign, d, B, Br(-sign, f, E, g)), A, r), p)
    requires Distinct(Br(-sign, Br(-sign, d, B, Br(-sign, f, E, g)), A, r))
    ensures DoubleSite(m, A, B, E, Root(f), Root(g), sign)
    ensures Child(m[A], sign) == Root(r) && m[A].parent == p && Child(m[B], -sign) == Root(d)
    ensures Linked(m, d, B) && Linked(m, f, E) && Linked(m, g, E) && Linked(m, r, A)
  {
    hide Distinct, Br;
    DoubleDistinct(-sign, d, B, f, E, g, A, r);
    BrView(m, -sign, Br(-sign, d, B, Br(-sign, f, E, g)), A, r, p);
    BrView(m, -sign, d, B, Br(-sign, f, E, g), A);
    BrView(m, -sign, f, E, g, B);
  }

  lemma DoubleBelow(m: Mem, m': Mem, sign: int, p: Node?,
                    d: Tree, B: Node, f: Tree, E: Node, g: Tree, A: Node, r: Tree)
    requires sign == 1 || sign == -1
    requires Linked(m, Br(-sign, Br(-sign, d, B, Br(-sign, f, E, g)), A, r), p)
    requires Distinct(Br(-sign, Br(-sign, d, B, Br(-sign, f, E, g)), A, r))
    requires DoubleSite(m, A, B, E, Root(f), Root(g), sign)
    requires DoubleRotated(m, m', A, B, E, Root(f), Root(g), sign)
    ensures Linked(m', Br(-sign, Br(-sign, d, B, f), E, Br(-sign, g, A, r)), p)
  {
    hide Linked, Distinct, Nodes;
    DoubleParts(m, sign, p, d, B, f, E, g, A, r);
    DoubleDistinct(-sign, d, B, f, E, g, A, r);
    Rehang(m, m', f, E, B);
    Rehang(m, m', g, E, A);
    LinkedFrame(m, m', d, B);
    LinkedFrame(m, m', r, A);
    BrView(m', -sign, d, B, f, E);
    BrView(m', -sign, g, A, r, E);
    BrView(m', -sign, Br(-sign, d, B, f), E, Br(-sign, g, A, r), p);
  }

  lemma DoubleShape(h: Heap, m: Mem, sign: int, c: Ctx,
                    d: Tree, B: Node, f: Tree, E: Node, g: Tree, A: Node, r: Tree)
    requires sign == 1 || sign == -1
    requires At(h, c, Br(-sign, Br(-sign, d, B, Br(-sign, f, E, g)), A, r))
    requires DoubleSite(h.mem, A, B, E, Root(f), Root(g), sign)
    requires DoubleRotated(h.mem, m, A, B, E, Root(f), Root(g), sign)
    ensures CtxParent(c) != null ==> CtxParent(c) in m
    ensures var h' := ReplaceChild(Heap(h.root, m), CtxParent(c), A, E);
            && At(h', c, Br(-sign, Br(-sign, d, B, f), E, Br(-sign, g, A, r)))
            && DoubleBalances(h.mem, h'.mem, A, B, E, sign)
  {
    hide Linked, CtxLinked, Distinct, CtxDistinct, Nodes, CtxNodes;
    var t := Br(-sign, Br(-sign, d, B, Br(-sign, f, E, g)), A, r);
    var t' := Br(-sign, Br(-sign, d, B, f), E, Br(-sign, g, A, r));
    DoubleBelow(h.mem, m, sign, CtxParent(c), d, B, f, E, g, A, r);
    DoubleDistinct(-sign, d, B, f, E, g, A, r);
    assert Root(t) == A && Root(t') == E;
    assert (Root(f) != null ==> Root(f) in Nodes(f)) && (Root(g) != null ==> Root(g) in Nodes(g));
    CtxLinkedFrame(h.mem, m, c, A);
    Splice(h.root, m, c, A, t');
    DoubleRotatedBalances(h.mem, m, ReplaceChild(Heap(h.root, m), CtxParent(c), A, E).mem, A, B, E, Root(f), Root(g), sign);
  }
}
