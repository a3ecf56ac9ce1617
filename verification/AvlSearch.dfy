/** Searching a sorted tree from the root: the invariant of the descent. */
module AvlSearch {
  import opened Keys
  import opened AvlShape
  import opened AvlRotate
  import opened AvlBalance

  /** The descent for `key` has reached `s` at the end of `c`: everything passed on the left is
      smaller and everything passed on the right is greater. */
  ghost predicate Search(h: Heap, c: Ctx, s: Tree, t: Tree, key: Key) {
    && Plug(c, s) == t && At(h, c, s) && Sorted(InOrder(t))
    && Balanced(h.mem, s) && CtxBalanced(h.mem, c, Height(s))
    && Below(Before(c), key) && Above(After(c), key)
  }

  ghost predicate Below(ns: seq<Node>, key: Key) {
    forall i :: 0 <= i < |ns| ==> Compare(key, ns[i].key) > 0
  }

  ghost predicate Above(ns: seq<Node>, key: Key) {
    forall i :: 0 <= i < |ns| ==> Compare(key, ns[i].key) < 0
  }

  lemma AboveRest(key: Key, n: Node, ns: seq<Node>)
    requires Compare(key, n.key) < 0 && Sorted([n] + ns)
    ensures Above([n] + ns, key)
  {
    forall i | 0 <= i < |ns| ensures Compare(key, ns[i].key) < 0 {
      assert ([n] + ns)[0] == n && ([n] + ns)[i + 1] == ns[i];
      CompareIsTotalOrder(key, n.key, ns[i].key);
    }
  }

  lemma BelowRest(key: Key, ns: seq<Node>, n: Node)
    requires Compare(key, n.key) > 0 && Sorted(ns + [n])
    ensures Below(ns + [n], key)
  {
    forall i | 0 <= i < |ns| ensures Compare(key, ns[i].key) > 0 {
      assert (ns + [n])[i] == ns[i] && (ns + [n])[|ns|] == n;
      CompareIsTotalOrder(ns[i].key, n.key, key);
      CompareIsTotalOrder(key, n.key, ns[i].key);
      CompareIsTotalOrder(key, ns[i].key, n.key);
    }
  }

  lemma SortedPart(s: seq<Node>, a: seq<Node>, b: seq<Node>, c: seq<Node>)
    requires s == a + b + c && Sorted(s)
    ensures Sorted(b)
  {
    forall i, j | 0 <= i < j < |b| ensures Compare(b[i].key, b[j].key) < 0 {
      assert s[|a| + i] == b[i] && s[|a| + j] == b[j];
    }
  }

  lemma SearchStep(h: Heap, c: Ctx, s: Tree, t: Tree, key: Key)
    requires Search(h, c, s, t, key) && s.Branch?
    ensures s.node in h.mem && h.mem[s.node].left == Root(s.left) && h.mem[s.node].right == Root(s.right)
    ensures Height(s) > Height(s.left) && Height(s) > Height(s.right)
    ensures s.node in Nodes(t)
    ensures Compare(key, s.node.key) < 0 ==> Search(h, InLeft(c, s.node, s.right), s.left, t, key)
    ensures Compare(key, s.node.key) > 0 ==> Search(h, InRight(c, s.left, s.node), s.right, t, key)
    ensures Compare(key, s.node.key) == 0 ==> s.node.key == key
  {
    NodesPlug(c, s);
    CompareIsTotalOrder(key, s.node.key, key);
    if Compare(key, s.node.key) < 0 {
      SearchLeft(h, c, s, t, key);
    } else if Compare(key, s.node.key) > 0 {
      SearchRight(h, c, s, t, key);
    }
  }

  lemma SearchLeft(h: Heap, c: Ctx, s: Tree, t: Tree, key: Key)
    requires Search(h, c, s, t, key) && s.Branch? && Compare(key, s.node.key) < 0
    ensures Search(h, InLeft(c, s.node, s.right), s.left, t, key)
  {
    hide At, Balanced, CtxBalanced, Plug, Height, Sorted, Compare;
    var Branch(l, n, r) := s;
    InOrderPlug(c, s);
    var L, R, B, A := InOrder(l), InOrder(r), Before(c), After(c);
    assert InOrder(t) == (B + L) + ([n] + R) + A;
    SortedPart(InOrder(t), B + L, [n] + R, A);
    AboveRest(key, n, R);
    AtChild(h, c, s, InLeft(c, n, r), l);
  }

  lemma SearchRight(h: Heap, c: Ctx, s: Tree, t: Tree, key: Key)
    requires Search(h, c, s, t, key) && s.Branch? && Compare(key, s.node.key) > 0
    ensures Search(h, InRight(c, s.left, s.node), s.right, t, key)
  {
    hide At, Balanced, CtxBalanced, Plug, Height, Sorted, Compare;
    var Branch(l, n, r) := s;
    InOrderPlug(c, s);
    var L, R, B, A := InOrder(l), InOrder(r), Before(c), After(c);
    assert InOrder(t) == B + (L + [n]) + (R + A);
    SortedPart(InOrder(t), B, L + [n], R + A);
    BelowRest(key, L, n);
    AtChild(h, c, s, InRight(c, l, n), r);
  }

  lemma AtChild(h: Heap, c: Ctx, s: Tree, c': Ctx, s': Tree)
    requires s.Branch? && At(h, c, s) && Balanced(h.mem, s) && CtxBalanced(h.mem, c, Height(s))
    requires (c' == InLeft(c, s.node, s.right) && s' == s.left) || (c' == InRight(c, s.left, s.node) && s' == s.right)
    ensures Plug(c', s') == Plug(c, s)
    ensures At(h, c', s') && Balanced(h.mem, s') && CtxBalanced(h.mem, c', Height(s'))
  {
    hide At, Balanced, CtxBalanced, Height;
    if c' == InLeft(c, s.node, s.right) && s' == s.left {
      AtLeft(h, c, s);
      BalancedLeft(h.mem, c, s);
    } else {
      AtRight(h, c, s);
      BalancedRight(h.mem, c, s);
    }
  }

  lemma AtLeft(h: Heap, c: Ctx, s: Tree)
    requires s.Branch? && At(h, c, s)
    ensures At(h, InLeft(c, s.node, s.right), s.left)
  {
  }

  lemma AtRight(h: Heap, c: Ctx, s: Tree)
    requires s.Branch? && At(h, c, s)
    ensures At(h, InRight(c, s.left, s.node), s.right)
  {
  }

  lemma BalancedLeft(m: Mem, c: Ctx, s: Tree)
    requires s.Branch? && Balanced(m, s) && CtxBalanced(m, c, Height(s))
    ensures Balanced(m, s.left) && CtxBalanced(m, InLeft(c, s.node, s.right), Height(s.left))
  {
  }

  lemma BalancedRight(m: Mem, c: Ctx, s: Tree)
    requires s.Branch? && Balanced(m, s) && CtxBalanced(m, c, Height(s))
    ensures Balanced(m, s.right) && CtxBalanced(m, InRight(c, s.left, s.node), Height(s.right))
  {
  }

  /** Nothing left to search: the key is not in the tree, and belongs between the two parts. */
  lemma SearchEnd(h: Heap, c: Ctx, s: Tree, t: Tree, key: Key)
    requires Search(h, c, s, t, key) && s.Leaf?
    ensures InOrder(t) == Before(c) + After(c)
    ensures forall n :: n in Nodes(t) ==> n.key != key
  {
    InOrderPlug(c, s);
    assert InOrder(t) == Before(c) + After(c);
    forall n | n in Nodes(t) ensures n.key != key {
      InOrderElems(t);
      CompareIsTotalOrder(key, n.key, key);
    }
  }

  ghost function Elems(s: seq<Node>): set<Node> {
    set n | n in s
  }

  lemma {:induction false} InOrderElems(t: Tree)
    ensures Nodes(t) == Elems(InOrder(t))
  {
    match t
    case Leaf =>
    case Branch(l, n, r) =>
      InOrderElems(l);
      InOrderElems(r);
      assert Elems(InOrder(l) + [n] + InOrder(r)) == Elems(InOrder(l)) + {n} + Elems(InOrder(r));
  }

  // ----- linking a new leaf -----

  /** The link the descent ended at is pointed at `item`; `l` and `r` are whatever the item's
      own links happened to be. */
  function WithLeaf(h: Heap, c: Ctx, item: Node, l: Node?, r: Node?): Heap
    requires CtxParent(c) != null ==> CtxParent(c) in h.mem
  {
    var linked := if c.Top? then Heap(item, h.mem) else h.(mem := SetChild(h.mem, c.node, CtxSign(c), item));
    linked.(mem := linked.mem[item := Rec(l, r, CtxParent(c), 0)])
  }

  lemma LinkLeaf(h: Heap, c: Ctx, t: Tree, item: Node, l: Node?, r: Node?)
    requires Search(h, c, Leaf, t, item.key) && item !in h.mem && h.mem.Keys == Nodes(t)
    ensures CtxParent(c) != null ==> CtxParent(c) in h.mem
    ensures var h' := WithLeaf(h, c, item, l, r);
            && At(h'.(mem := h'.mem[item := Rec(null, null, CtxParent(c), 0)]), c, Branch(Leaf, item, Leaf))
            && CtxBalanced(h'.mem, c, 0)
  {
    hide Balanced, CtxBalanced, Linked, Distinct, CtxDistinct, Plug, InOrder, Sorted, Below, Above;
    NodesPlug(c, Leaf);
    assert item !in CtxNodes(c);
    if CtxParent(c) != null { CtxParentIn(h.mem, c, null); }
    var h' := WithLeaf(h, c, item, l, r);
    var m := h'.mem[item := Rec(null, null, CtxParent(c), 0)];
    RelinkHole(h.mem, m, c, null, item);
    CtxRootOfLeaf(c, item);
    LeafTree(m, item, CtxParent(c), CtxNodes(c));
    SameCtxBalance(h.mem, h'.mem, c, 0);
  }

  lemma {:induction false} CtxRootOfLeaf(c: Ctx, item: Node)
    ensures c.Top? ==> CtxRoot(c, item) == item
    ensures !c.Top? ==> CtxRoot(c, item) == CtxRoot(c, null)
  {
  }

  lemma LeafTree(m: Mem, item: Node, p: Node?, others: set<Node>)
    requires item in m && m[item] == Rec(null, null, p, 0) && item !in others
    ensures var t := Branch(Leaf, item, Leaf);
            Linked(m, t, p) && Distinct(t) && Nodes(t) !! others && Root(t) == item
  {
  }

  /** The in-order sequence with the new item between the two parts is sorted again. */
  lemma InsertSorted(c: Ctx, t: Tree, item: Node)
    requires Sorted(Before(c) + After(c)) && Below(Before(c), item.key) && Above(After(c), item.key)
    ensures Sorted(Before(c) + [item] + After(c))
  {
    var B, A := Before(c), After(c);
    var s := B + [item] + A;
    forall i, j | 0 <= i < j < |s| ensures Compare(s[i].key, s[j].key) < 0 {
      if i < |B| && j == |B| {
        CompareIsTotalOrder(item.key, s[i].key, item.key);
        CompareIsTotalOrder(s[i].key, item.key, item.key);
      } else if i != |B| {
        var i', j' := if i < |B| then i else i - 1, if j < |B| then j else j - 1;
        assert (B + A)[i'] == s[i] && (B + A)[j'] == s[j];
      }
    }
  }

  lemma NodesOfOrder(t: Tree, t': Tree, s: seq<Node>, item: Node, r: seq<Node>)
    requires InOrder(t) == s + r && InOrder(t') == s + [item] + r
    ensures Nodes(t') == Nodes(t) + {item}
  {
    hide Nodes, InOrder;
    InOrderElems(t);
    InOrderElems(t');
    assert Elems(s + r) == Elems(s) + Elems(r);
    assert Elems(s + [item] + r) == Elems(s) + {item} + Elems(r);
  }

  lemma SearchStart(h: Heap, t: Tree, key: Key)
    requires At(h, Top, t) && Balanced(h.mem, t) && Sorted(InOrder(t))
    ensures Search(h, Top, t, t, key) && h.root == Root(t)
  {
  }

  lemma SearchParts(h: Heap, c: Ctx, t: Tree, item: Node)
    requires Search(h, c, Leaf, t, item.key)
    ensures InOrder(t) == Before(c) + After(c)
    ensures InOrder(Plug(c, Branch(Leaf, item, Leaf))) == Before(c) + [item] + After(c)
    ensures Sorted(Before(c) + [item] + After(c))
  {
    hide At, Balanced, CtxBalanced, Plug, Nodes, Sorted, Below, Above;
    SearchEnd(h, c, Leaf, t, item.key);
    InOrderPlug(c, Branch(Leaf, item, Leaf));
    assert InOrder(Branch(Leaf, item, Leaf)) == [item];
    InsertSorted(c, t, item);
  }

  lemma LinkedKeys(h: Heap, c: Ctx, item: Node, l: Node?, r: Node?)
    requires CtxParent(c) != null ==> CtxParent(c) in h.mem
    ensures var m := WithLeaf(h, c, item, l, r).mem;
            m.Keys == h.mem.Keys + {item} && m[item] == Rec(l, r, CtxParent(c), 0)
  {
  }
}
