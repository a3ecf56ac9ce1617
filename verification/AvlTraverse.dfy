/** Walking the tree along the parent links: in order and in reverse, and in postorder, where
    each node is released as soon as it has been visited. */
module AvlTraverse {
  import opened Keys
  import opened AvlShape
  import opened AvlSearch
  import opened AvlRotate
  import opened AvlTree
  import opened AvlUnlink

  // ----- in order -----

  /** The neighbour of position `i` in direction `sign`. */
  ghost function Neighbour(s: seq<Node>, i: int, sign: int): Node?
    requires 0 <= i < |s|
  {
    var j := if sign < 0 then i - 1 else i + 1;
    if 0 <= j < |s| then s[j] else null
  }

  /** The extreme node of a tree on side `sign`. */
  ghost function Extreme(t: Tree, sign: int): Node?
  {
    if t.Leaf? then null
    else if sign < 0 then InOrder(t)[0] else InOrder(t)[|InOrder(t)| - 1]
  }

  /** What is next to the subtree at the end of `c` in direction `sign`. */
  ghost function Beside(c: Ctx, sign: int): Node?
  {
    match c
    case Top => null
    case InLeft(up, n, _) => if sign < 0 then Beside(up, sign) else n
    case InRight(up, _, n) => if sign < 0 then n else Beside(up, sign)
  }

  lemma {:induction false} BesideIsNext(c: Ctx, sign: int)
    ensures sign < 0 ==> Beside(c, sign) == if Before(c) == [] then null else Before(c)[|Before(c)| - 1]
    ensures sign >= 0 ==> Beside(c, sign) == if After(c) == [] then null else After(c)[0]
  {
    match c
    case Top =>
    case InLeft(up, _, _) => BesideIsNext(up, sign);
    case InRight(up, _, _) => BesideIsNext(up, sign);
  }

  lemma NeighbourOf(t: Tree, c: Ctx, s: Tree, sign: int)
    requires s.Branch? && Plug(c, s) == t && sign != 0
    ensures var i := |Before(c)| + |InOrder(s.left)|;
            && i < |InOrder(t)| && InOrder(t)[i] == s.node
            && Neighbour(InOrder(t), i, sign)
            == (var child := if sign < 0 then s.left else s.right;
                if child.Branch? then Extreme(child, -sign) else Beside(c, sign))
  {
    hide InOrder, Before, After, Plug;
    InOrderPlug(c, s);
    InOrderBranch(s);
    BesideIsNext(c, sign);
    InOrderEmpty(s.left);
    InOrderEmpty(s.right);
    MiddleOf(Before(c), InOrder(s.left), s.node, InOrder(s.right), After(c));
  }

  lemma MiddleOf<T>(b: seq<T>, l: seq<T>, n: T, r: seq<T>, a: seq<T>)
    ensures var s, i := b + (l + [n] + r) + a, |b| + |l|;
            && i < |s| && s[i] == n
            && (r != [] ==> i + 1 < |s| && s[i + 1] == r[0])
            && (r == [] && a != [] ==> i + 1 < |s| && s[i + 1] == a[0])
            && (r == [] && a == [] ==> i + 1 == |s|)
            && (l != [] ==> i > 0 && s[i - 1] == l[|l| - 1])
            && (l == [] && b != [] ==> i > 0 && s[i - 1] == b[|b| - 1])
            && (l == [] && b == [] ==> i == 0)
  {
  }

  lemma InOrderEmpty(t: Tree)
    ensures t.Leaf? <==> InOrder(t) == []
  {
  }

  /** First (`sign < 0`) or last node of the tree in order. */
  method FirstOrLast(h: Handle, sign: int, ghost t: Tree) returns (first: Node?)
    requires h.Holds(t) && sign != 0
    ensures first == Extreme(t, sign)
  {
    first := h.root;
    if first != null {
      first := Dive(h, first, sign, t, null);
    }
  }

  /** Down one side of a subtree as far as it goes. */
  method Dive(ghost h: Handle, top: Node, sign: int, ghost t: Tree, ghost p: Node?) returns (n: Node)
    requires h.Sync() && Linked(h.mem, t, p) && Root(t) == top && sign != 0
    ensures n == Extreme(t, sign)
  {
    n := top;
    ghost var s, q := t, p;
    while GetChild(n, sign) != null
      invariant Linked(h.mem, s, q) && Root(s) == n && Extreme(s, sign) == Extreme(t, sign)
      decreases s
    {
      InOrderBranch(s);
      InOrderEmpty(if sign < 0 then s.left else s.right);
      q := n;
      s := if sign < 0 then s.left else s.right;
      n := GetChild(n, sign);
    }
    InOrderBranch(s);
  }

  /** The next (`sign > 0`) or previous node in order, or null if there is none. */
  method NextOrPrev(ghost h: Handle, start: Node, sign: int, ghost t: Tree) returns (next: Node?, ghost at: nat)
    requires h.Holds(t) && start in Nodes(t) && sign != 0
    ensures at < |InOrder(t)| && InOrder(t)[at] == start
    ensures next == Neighbour(InOrder(t), at, sign)
  {
    hide InOrder, Balanced, CtxBalanced, Plug, Extreme, Neighbour, Distinct, CtxDistinct, CtxLinked, Linked, Nodes;
    ghost var c, s := FindPlace(t, start, Top);
    PlaceAt(h.View(), t, c, s);
    NeighbourOf(t, c, s, sign);
    PlaceLinks(h.View(), c, s);
    at := |Before(c)| + |InOrder(s.left)|;
    if GetChild(start, sign) != null {
      ghost var child := if sign < 0 then s.left else s.right;
      next := Dive(h, GetChild(start, sign), -sign, child, start);
    } else {
      var node: Node := start;
      next := node.parent;
      ghost var k := c;
      while next != null && node == GetChild(next, sign)
        invariant next == CtxParent(k) && CtxLinked(h.mem, k, node) && CtxDistinct(k) && node !in CtxNodes(k)
        invariant Beside(k, sign) == Beside(c, sign)
        decreases k
      {
        SideOf(h.mem, k, node, sign);
        node := next;
        next := next.parent;
        k := k.up;
      }
      if next != null { SideOf(h.mem, k, node, sign); }
    }
  }

  lemma PlaceLinks(h: Heap, c: Ctx, s: Tree)
    requires At(h, c, s) && s.Branch?
    ensures Linked(h.mem, s.left, s.node) && Linked(h.mem, s.right, s.node)
    ensures h.mem[s.node].parent == CtxParent(c) && CtxLinked(h.mem, c, s.node) && CtxDistinct(c) && s.node !in CtxNodes(c)
    ensures CtxParent(c) != null ==> CtxParent(c) in h.mem
  {
    hide CtxLinked, CtxDistinct, Distinct, CtxNodes;
    if CtxParent(c) != null { CtxParentIn(h.mem, c, s.node); }
  }

  /** Which side of its parent a subtree hangs on can be told from the parent's link. */
  lemma SideOf(m: Mem, k: Ctx, node: Node, sign: int)
    requires CtxLinked(m, k, node) && CtxDistinct(k) && node !in CtxNodes(k) && !k.Top? && sign != 0
    ensures k.node in m && (Child(m[k.node], sign) == node <==> CtxSign(k) * sign > 0)
    ensures m[k.node].parent == CtxParent(k.up) && CtxLinked(m, k.up, k.node)
    ensures CtxDistinct(k.up) && k.node !in CtxNodes(k.up)
  {
  }

  lemma ExtremeFirst(t: Tree)
    ensures Extreme(t, -1) == if InOrder(t) == [] then null else InOrder(t)[0]
  {
    InOrderEmpty(t);
  }

  lemma SortedDistinct(s: seq<Node>, i: int, j: int)
    requires Sorted(s) && 0 <= i < |s| && 0 <= j < |s| && s[i] == s[j]
    ensures i == j
  {
    CompareIsTotalOrder(s[i].key, s[j].key, s[i].key);
  }

  /** The whole walk: every node once, in ascending order. */
  method ForEachInOrder(h: Handle, ghost t: Tree) returns (visited: seq<Node>)
    requires h.Holds(t)
    ensures visited == InOrder(t)
  {
    hide InOrder, Nodes, Balanced, At, Extreme, Sorted;
    ExtremeFirst(t);
    visited := [];
    var cur := FirstOrLast(h, -1, t);
    InOrderEmpty(t);
    while cur != null
      invariant h.Holds(t) && |visited| <= |InOrder(t)| && visited == InOrder(t)[..|visited|]
      invariant cur == if |visited| == |InOrder(t)| then null else InOrder(t)[|visited|]
      decreases |InOrder(t)| - |visited|
    {
      InOrderElems(t);
      ghost var k := |visited|;
      visited := visited + [cur];
      ghost var at;
      cur, at := NextOrPrev(h, cur, 1, t);
      SortedDistinct(InOrder(t), k, at);
    }
  }

  // ----- postorder -----

  ghost function PostOrder(t: Tree): seq<Node> {
    match t
    case Leaf => []
    case Branch(l, n, r) => PostOrder(l) + PostOrder(r) + [n]
  }

  /** What is still to come in postorder after the subtree at the end of `c`. */
  ghost function PostAfter(c: Ctx): seq<Node> {
    match c
    case Top => []
    case InLeft(up, n, r) => PostOrder(r) + [n] + PostAfter(up)
    case InRight(up, _, n) => [n] + PostAfter(up)
  }

  /** Children come before their parent. */
  lemma {:induction false} PostOrderElems(t: Tree)
    ensures Elems(PostOrder(t)) == Nodes(t)
    ensures t.Branch? ==> PostOrder(t) != [] && PostOrder(t)[|PostOrder(t)| - 1] == t.node
  {
    match t
    case Leaf =>
    case Branch(l, n, r) =>
      PostOrderElems(l);
      PostOrderElems(r);
      assert Elems(PostOrder(l) + PostOrder(r) + [n]) == Elems(PostOrder(l)) + Elems(PostOrder(r)) + {n};
  }

  ghost predicate NoDuplicates(s: seq<Node>) {
    forall i, j :: 0 <= i < j < |s| ==> s[i] != s[j]
  }

  lemma {:induction false} PostOrderDistinct(t: Tree)
    requires Distinct(t)
    ensures NoDuplicates(PostOrder(t))
  {
    match t
    case Leaf =>
    case Branch(l, n, r) =>
      PostOrderDistinct(l);
      PostOrderDistinct(r);
      PostOrderElems(l);
      PostOrderElems(r);
      JoinDistinct(PostOrder(l), PostOrder(r));
      assert Elems(PostOrder(l) + PostOrder(r)) == Elems(PostOrder(l)) + Elems(PostOrder(r));
      JoinDistinct(PostOrder(l) + PostOrder(r), [n]);
  }

  lemma JoinDistinct(a: seq<Node>, b: seq<Node>)
    requires NoDuplicates(a) && NoDuplicates(b) && Elems(a) !! Elems(b)
    ensures NoDuplicates(a + b)
  {
    var s := a + b;
    forall i, j | 0 <= i < j < |s| ensures s[i] != s[j] {
      if i < |a| <= j {
        assert a[i] in Elems(a) && b[j - |a|] in Elems(b);
      }
    }
  }

  // A read of a node's links is only allowed while the node has not been released.

  function LeftOf(n: Node): Node?
    requires !n.freed
    reads n
  {
    n.left
  }

  function RightOf(n: Node): Node?
    requires !n.freed
    reads n
  {
    n.right
  }

  function ParentOf(n: Node): Node?
    requires !n.freed
    reads n
  {
    n.parent
  }

  /** A tree `t` is being released in postorder, and the walk is at the subtree `s` at the end
      of `c`. Exactly the nodes in `released` are gone; next come those in `todo`, which belong
      to `s`, and then the rest. */
  ghost predicate Releasing(h: Handle, t: Tree, c: Ctx, s: Tree, released: seq<Node>, todo: seq<Node>)
    reads h, h.mem.Keys`left, h.mem.Keys`right, h.mem.Keys`parent, h.mem.Keys`balance, Nodes(t)`freed
  {
    && h.Holds(t) && Plug(c, s) == t && s.Branch?
    && PostOrder(t) == released + todo + PostAfter(c)
    && forall n :: n in Nodes(t) ==> (n.freed <==> n in released)
  }

  /** Down to where the postorder of a subtree starts: always left if possible, else right. */
  method DivePost(ghost h: Handle, top: Node, ghost t: Tree, ghost c0: Ctx, ghost s0: Tree, ghost released: seq<Node>)
    returns (first: Node, ghost c: Ctx, ghost s: Tree)
    requires Releasing(h, t, c0, s0, released, PostOrder(s0)) && Root(s0) == top
    ensures Releasing(h, t, c, s, released, [first]) && Root(s) == first
  {
    hide InOrder, Plug, Nodes, PostOrder, PostAfter, Releasing;
    first, c, s := top, c0, s0;
    StillThere(h, t, c, s, released, PostOrder(s));
    while LeftOf(first) != null || RightOf(first) != null
      invariant Releasing(h, t, c, s, released, PostOrder(s)) && s.Branch? && Root(s) == first
      invariant !first.freed && LeftOf(first) == Root(s.left) && RightOf(first) == Root(s.right)
      decreases s
    {
      PostDown(h, t, c, s, released);
      if LeftOf(first) != null {
        first := LeftOf(first);
        c, s := InLeft(c, s.node, s.right), s.left;
      } else {
        first := RightOf(first);
        c, s := InRight(c, s.left, s.node), s.right;
      }
      StillThere(h, t, c, s, released, PostOrder(s));
    }
    PostLeaf(s);
  }

  lemma PostLeaf(s: Tree)
    requires s.Branch? && s.left.Leaf? && s.right.Leaf?
    ensures PostOrder(s) == [s.node]
  {
  }

  lemma PostDown(h: Handle, t: Tree, c: Ctx, s: Tree, released: seq<Node>)
    requires s.Branch? && Releasing(h, t, c, s, released, PostOrder(s))
    ensures s.left.Branch? ==> Releasing(h, t, InLeft(c, s.node, s.right), s.left, released, PostOrder(s.left))
    ensures s.left.Leaf? && s.right.Branch? ==>
              Releasing(h, t, InRight(c, s.left, s.node), s.right, released, PostOrder(s.right))
  {
    hide InOrder, Nodes, Sorted, Balanced, At, NoDuplicates, PostOrder;
    PostBranch(s);
    PostSeq(released, PostOrder(s.left), PostOrder(s.right), s.node, PostAfter(c));
  }

  lemma PostBranch(s: Tree)
    requires s.Branch?
    ensures PostOrder(s) == PostOrder(s.left) + PostOrder(s.right) + [s.node]
    ensures s.left.Leaf? ==> PostOrder(s.left) == []
  {
  }

  lemma PostSeq<T>(d: seq<T>, l: seq<T>, r: seq<T>, n: T, a: seq<T>)
    ensures d + (l + r + [n]) + a == d + l + (r + [n] + a)
    ensures l == [] ==> d + (l + r + [n]) + a == d + r + ([n] + a)
  {
  }

  /** The node to visit and its ancestors have not been released yet, and their links are
      those of the tree. */
  lemma StillThere(h: Handle, t: Tree, c: Ctx, s: Tree, released: seq<Node>, todo: seq<Node>)
    requires s.Branch? && Releasing(h, t, c, s, released, todo)
    ensures s.node in Nodes(t) && (todo != [] && todo[|todo| - 1] == s.node ==> !s.node.freed)
    ensures todo == PostOrder(s) ==> !s.node.freed
    ensures s.node.left == Root(s.left) && s.node.right == Root(s.right) && s.node.parent == CtxParent(c)
    ensures !c.Top? ==> c.node in Nodes(t) && !c.node.freed && c.node.parent == CtxParent(c.up)
    ensures !c.Top? ==> (c.node.left == s.node <==> c.InLeft?)
    ensures c.InLeft? ==> c.node.right == Root(c.right)
  {
    hide InOrder, Balanced, CtxBalanced, Distinct, CtxDistinct, PostOrder, PostAfter, Plug, Nodes, CtxNodes, Sorted,
      NoDuplicates;
    NodesPlug(c, s);
    AtPlug(h.View(), c, s);
    PlaceLinks(h.View(), c, s);
    AtChildren(h.View(), c, s);
    AtDistinct(h.View(), Top, t);
    PostOrderDistinct(t);
    PostOrderElems(s);
    LaterNode(released, todo, PostAfter(c));
    if !c.Top? {
      PostAfterParent(c);
      SideOf(h.mem, c, s.node, -1);
      ParentLinks(h.mem, c, s.node);
    }
  }

  lemma ParentLinks(m: Mem, c: Ctx, hole: Node?)
    requires CtxLinked(m, c, hole) && !c.Top?
    ensures c.node in m && (c.InLeft? ==> m[c.node].right == Root(c.right))
  {
  }

  lemma PostAfterParent(c: Ctx)
    requires !c.Top?
    ensures c.node in PostAfter(c) && c.node in CtxNodes(c)
  {
  }

  /** In a sequence without duplicates, what comes later is not among what came before. */
  lemma LaterNode(a: seq<Node>, b: seq<Node>, c: seq<Node>)
    requires NoDuplicates(a + b + c)
    ensures b != [] ==> b[|b| - 1] !in a
    ensures forall n :: n in c ==> n !in a
  {
    var s := a + b + c;
    forall i, j | 0 <= i < |a| && 0 <= j < |b| ensures b[j] != a[i] {
      assert s[i] == a[i] && s[|a| + j] == b[j];
    }
    forall i, j | 0 <= i < |a| && 0 <= j < |c| ensures c[j] != a[i] {
      assert s[i] == a[i] && s[|a| + |b| + j] == c[j];
    }
  }

  /** Continues a postorder walk. `prev` itself is not looked into, as it has been released;
      its parent was saved before. */
  method NextPost(ghost h: Handle, prev: Node, prevParent: Node?, ghost t: Tree, ghost c: Ctx, ghost s: Tree,
                  ghost released: seq<Node>)
    returns (next: Node?, ghost c': Ctx, ghost s': Tree)
    requires Releasing(h, t, c, s, released, []) && Root(s) == prev && prevParent == CtxParent(c)
    ensures next == null ==> released == PostOrder(t) && forall n :: n in Nodes(t) ==> n.freed
    ensures next != null ==> Releasing(h, t, c', s', released, [next]) && Root(s') == next
  {
    hide InOrder, Plug, Nodes, PostOrder, PostAfter, Releasing;
    StillThereRoot(h, t, c, s, released);
    StillThere(h, t, c, s, released, []);
    next, c', s' := prevParent, c, s;
    if next == null {
      EndRelease(h, t, c, s, released);
    } else {
      PostUp(h, t, c, s, released);
      if prev == LeftOf(next) && RightOf(next) != null {
        next, c', s' := DivePost(h, RightOf(next), t, InRight(c.up, s, c.node), c.right, released);
      } else {
        c', s' := c.up, if c.InLeft? then Branch(s, c.node, c.right) else Branch(c.left, c.node, s);
      }
    }
  }

  lemma StillThereRoot(h: Handle, t: Tree, c: Ctx, s: Tree, released: seq<Node>)
    requires Releasing(h, t, c, s, released, [])
    ensures s.Branch?
  {
  }

  /** After a subtree: its sibling on the right if there is one, and otherwise the parent. */
  lemma PostUp(h: Handle, t: Tree, c: Ctx, s: Tree, released: seq<Node>)
    requires Releasing(h, t, c, s, released, []) && !c.Top?
    ensures c.InLeft? && c.right.Branch? ==>
              Releasing(h, t, InRight(c.up, s, c.node), c.right, released, PostOrder(c.right))
    ensures c.InLeft? && c.right.Leaf? ==> Releasing(h, t, c.up, Branch(s, c.node, c.right), released, [c.node])
    ensures c.InRight? ==> Releasing(h, t, c.up, Branch(c.left, c.node, s), released, [c.node])
  {
    if c.InLeft? {
      assert released + [] + (PostOrder(c.right) + [c.node] + PostAfter(c.up))
          == released + PostOrder(c.right) + ([c.node] + PostAfter(c.up));
    }
    assert c.InLeft? && c.right.Leaf? ==>
             released + [] + (PostOrder(c.right) + [c.node] + PostAfter(c.up)) == released + [c.node] + PostAfter(c.up);
    assert released + [] + ([c.node] + PostAfter(c.up)) == released + [c.node] + PostAfter(c.up);
  }

  lemma StartRelease(h: Handle, t: Tree)
    requires h.Holds(t) && (forall n :: n in Nodes(t) ==> !n.freed) && h.root != null
    ensures Releasing(h, t, Top, t, [], PostOrder(t)) && Root(t) == h.root
  {
    assert PostOrder(t) == [] + PostOrder(t) + [];
  }

  lemma EmptyPost(h: Handle, t: Tree)
    requires h.Holds(t) && h.root == null
    ensures t == Leaf && PostOrder(t) == []
  {
  }

  lemma EndRelease(h: Handle, t: Tree, c: Ctx, s: Tree, released: seq<Node>)
    requires Releasing(h, t, c, s, released, []) && c.Top?
    ensures released == PostOrder(t) && forall n :: n in Nodes(t) ==> n.freed
  {
    assert released + [] + [] == released;
    PostOrderElems(t);
  }

  /** Releases every node of the tree, children before their parents, each exactly once, and
      never looks into a node that has been released. */
  method FreeTree(h: Handle, ghost t: Tree) returns (released: seq<Node>)
    requires h.Holds(t) && forall n :: n in Nodes(t) ==> !n.freed
    modifies h`root, Nodes(t)`freed
    ensures released == PostOrder(t) && h.root == null
    ensures forall n :: n in Nodes(t) ==> n.freed
  {
    hide InOrder, Plug, PostOrder, PostAfter, Releasing, Handle.Holds;
    released := [];
    if h.root != null {
      StartRelease(h, t);
      ghost var c, s;
      var cur: Node?;
      cur, c, s := DivePost(h, h.root, t, Top, t, []);
      while cur != null
        invariant cur != null ==> Releasing(h, t, c, s, released, [cur]) && Root(s) == cur
        invariant cur == null ==> released == PostOrder(t)
        invariant cur == null ==> forall n :: n in Nodes(t) ==> n.freed
        decreases if cur == null then 0 else 1, |PostOrder(t)| - |released|
      {
        StillThere(h, t, c, s, released, [cur]);
        var parent := ParentOf(cur);
        Release(h, cur, t, c, s, released);
        released := released + [cur];
        cur, c, s := NextPost(h, cur, parent, t, c, s, released);
      }
    } else {
      EmptyPost(h, t);
    }
    h.root := null;
  }

  /** One node goes. */
  method Release(ghost h: Handle, n: Node, ghost t: Tree, ghost c: Ctx, ghost s: Tree, ghost released: seq<Node>)
    requires Releasing(h, t, c, s, released, [n])
    modifies n`freed
    ensures Releasing(h, t, c, s, released + [n], []) && |released| < |PostOrder(t)|
  {
    hide Plug, PostOrder, PostAfter, Handle.Holds, Nodes;
    assert released + [n] + PostAfter(c) == released + [n] + [] + PostAfter(c);
    n.freed := true;
  }
}
