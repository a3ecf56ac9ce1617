/** The AVL tree behind a root pointer: lookup and insertion, updating the nodes in place. */
module AvlTree {
  import opened Keys
  import opened AvlShape
  import opened AvlRotate
  import opened AvlBalance
  import opened AvlGrowth
  import opened AvlSearch
  import opened AvlShrink
  import opened AvlUnlink

  function GetChild(n: Node, sign: int): Node?
    reads n
  {
    if sign < 0 then n.left else n.right
  }

  method PutChild(n: Node, sign: int, child: Node?)
    modifies n`left, n`right
    ensures sign < 0 ==> n.left == child && n.right == old(n.right)
    ensures sign >= 0 ==> n.right == child && n.left == old(n.left)
  {
    if sign < 0 { n.left := child; } else { n.right := child; }
  }

  function Just(n: Node?): set<Node> {
    if n == null then {} else {n}
  }

  /** The updates of a single rotation below the parent's link. */
  method RotateLinks(A: Node, sign: int, ghost b: Node, ghost e: Node?) returns (B: Node, P: Node?)
    requires sign == 1 || sign == -1
    requires A != b && GetChild(A, -sign) == b && e == GetChild(b, sign) && e != A && e != b
    modifies {A, b}`left, {A, b}`right, {A, b}`parent, Just(e)`parent
    ensures B == b && P == old(A.parent)
    ensures GetChild(A, -sign) == e && GetChild(A, sign) == old(GetChild(A, sign)) && A.parent == B
    ensures GetChild(B, sign) == A && GetChild(B, -sign) == old(GetChild(B, -sign)) && B.parent == P
    ensures e != null ==> e.parent == A
  {
    B := GetChild(A, -sign);
    var E := GetChild(B, sign);
    P := A.parent;

    PutChild(A, -sign, E);
    A.parent := B;

    PutChild(B, sign, A);
    B.parent := P;

    if E != null { E.parent := A; }
  }

  /** The updates of a double rotation below the parent's link. */
  method DoubleRotateLinks(B: Node, A: Node, sign: int, ghost e: Node, ghost f: Node?, ghost g: Node?)
    returns (E: Node, P: Node?)
    requires sign == 1 || sign == -1
    requires A != B && A != e && B != e
    requires GetChild(B, sign) == e && f == GetChild(e, -sign) && g == GetChild(e, sign)
    requires f !in {A, B, e} && g !in {A, B, e} && (f == g ==> f == null)
    modifies {A, B, e}`left, {A, B, e}`right, {A, B, e}`parent, {A, B, e}`balance
    modifies Just(f)`parent, Just(g)`parent
    ensures E == e && P == old(A.parent)
    ensures GetChild(A, -sign) == g && GetChild(A, sign) == old(GetChild(A, sign)) && A.parent == E
    ensures GetChild(B, sign) == f && GetChild(B, -sign) == old(GetChild(B, -sign)) && B.parent == E
    ensures GetChild(E, sign) == A && GetChild(E, -sign) == B && E.parent == P
    ensures A.balance == if sign * old(e.balance) >= 0 then 0 else -old(e.balance)
    ensures B.balance == if sign * old(e.balance) <= 0 then 0 else -old(e.balance)
    ensures E.balance == 0
    ensures f != null ==> f.parent == B
    ensures g != null ==> g.parent == A
  {
    E := GetChild(B, sign);
    var F := GetChild(E, -sign);
    var G := GetChild(E, sign);
    P := A.parent;
    var eb := E.balance;

    PutChild(A, -sign, G);
    A.parent := E;
    A.balance := if sign * eb >= 0 then 0 else -eb;

    PutChild(B, sign, F);
    B.parent := E;
    B.balance := if sign * eb <= 0 then 0 else -eb;

    PutChild(E, sign, A);
    PutChild(E, -sign, B);
    E.parent := P;
    E.balance := 0;

    if G != null { G.parent := A; }
    if F != null { F.parent := B; }
  }

  ghost function Snapshot(ns: set<Node>): Mem
    reads ns`left, ns`right, ns`parent, ns`balance
  {
    map n | n in ns :: Rec(n.left, n.right, n.parent, n.balance)
  }

  /** The location of the root pointer (`root_ptr` in every function of the library). `mem` is
      a ghost copy of the fields of the nodes in use. */
  class Handle {
    var root: Node?
    ghost var mem: Mem
    ghost var rotations: nat // single and double rotations made so far

    constructor ()
      ensures root == null && mem == map[]
    {
      root, mem, rotations := null, map[], 0;
    }

    ghost predicate Sync()
      reads this`mem, mem.Keys`left, mem.Keys`right, mem.Keys`parent, mem.Keys`balance
    {
      forall n :: n in mem ==>
        n.left == mem[n].left && n.right == mem[n].right && n.parent == mem[n].parent && n.balance == mem[n].balance
    }

    ghost function View(): Heap
      reads this`root, this`mem
    {
      Heap(root, mem)
    }

    lemma SyncChild()
      requires Sync()
      ensures forall n, sign :: n in mem ==> GetChild(n, sign) == Child(mem[n], sign)
    {
    }

    /** Takes a new copy of the fields after they have been updated. */
    ghost method Refresh()
      modifies this`mem
      ensures Sync() && mem == Snapshot(old(mem).Keys) && mem.Keys == old(mem).Keys
    {
      mem := Snapshot(mem.Keys);
    }

    /** Adds to the stored balance factor. */
    method AdjustBalance(n: Node, amount: int)
      requires Sync() && n in mem
      modifies this`mem, n`balance
      ensures Sync() && mem == SetBalance(old(mem), n, old(mem)[n].balance + amount)
    {
      n.balance := n.balance + amount;
      mem := SetBalance(mem, n, n.balance);
    }

    method PutReplaceChild(parent: Node?, oldChild: Node, newChild: Node?)
      requires Sync() && (parent != null ==> parent in mem)
      modifies this`root, this`mem, Just(parent)`left, Just(parent)`right
      ensures Sync() && View() == ReplaceChild(old(View()), parent, oldChild, newChild)
    {
      if parent != null {
        var side := if oldChild == parent.left then -1 else 1;
        PutChild(parent, side, newChild);
        mem := SetChild(mem, parent, side, newChild);
      } else {
        root := newChild;
      }
    }

    // ----- rotations -----

    /** B, A's child away from the sign, takes A's place; the balances are left to the caller. */
    method RotateNodes(A: Node, sign: int, ghost B: Node, ghost E: Node?) returns (b: Node, P: Node?)
      requires sign == 1 || sign == -1
      requires Sync() && RotateSite(mem, A, B, E, sign)
      modifies this`mem, mem.Keys`left, mem.Keys`right, mem.Keys`parent
      ensures Sync() && b == B && P == old(mem)[A].parent
      ensures Rotated(old(mem), mem, A, B, E, sign)
    {
      b, P := RotateLinks(A, sign, B, E);
      Refresh();
      RotatedFields(old(mem), mem, A, B, E, sign);
    }

    /** Double rotation: counter to `sign` about B, then about A. Sets the balance factors. */
    method DoubleRotateNodes(B: Node, A: Node, sign: int, ghost e: Node, ghost F: Node?, ghost G: Node?)
      returns (E: Node, P: Node?)
      requires sign == 1 || sign == -1
      requires Sync() && DoubleSite(mem, A, B, e, F, G, sign)
      modifies this`mem, mem.Keys`left, mem.Keys`right, mem.Keys`parent, mem.Keys`balance
      ensures Sync() && E == e && P == old(mem)[A].parent
      ensures DoubleRotated(old(mem), mem, A, B, E, F, G, sign)
    {
      hide DoubleRotated, Child, GetChild, Snapshot;
      SyncChild();
      E, P := DoubleRotateLinks(B, A, sign, e, F, G);
      Refresh();
      SyncChild();
      DoubleRotatedFields(old(mem), mem, A, B, E, F, G, sign);
    }

    /** The same, for a node in a tree. */
    method Rotate(A: Node, sign: int, ghost c: Ctx, ghost d: Tree, ghost B: Node, ghost e: Tree, ghost r: Tree)
      requires sign == 1 || sign == -1
      requires Sync() && At(View(), c, Br(-sign, Br(-sign, d, B, e), A, r))
      modifies this, mem.Keys`left, mem.Keys`right, mem.Keys`parent
      ensures Sync() && At(View(), c, Br(-sign, d, B, Br(-sign, e, A, r)))
      ensures mem.Keys == old(mem.Keys) && {A, B} <= mem.Keys && A != B
      ensures forall n :: n in mem ==> mem[n].balance == old(mem)[n].balance
      ensures rotations == old(rotations) + 1
    {
      hide At, Linked, CtxLinked, Distinct, CtxDistinct, Nodes, Br, ReplaceChild, SetChild, Sync, Rotated, RotateSite;
      ghost var h := View();
      AtParts(h, c, -sign, Br(-sign, d, B, e), A, r);
      RotateParts(mem, A, sign, CtxParent(c), d, B, e, r);
      RotateDistinct(-sign, d, B, e, A, r);
      var b, P := RotateNodes(A, sign, B, Root(e));
      RotateShape(h, mem, A, sign, c, d, B, e, r);
      PutReplaceChild(P, A, b);
      rotations := rotations + 1;
    }

    method DoubleRotate(B: Node, A: Node, sign: int, ghost c: Ctx,
                        ghost d: Tree, ghost f: Tree, ghost e: Node, ghost g: Tree, ghost r: Tree)
      returns (E: Node)
      requires sign == 1 || sign == -1
      requires Sync() && At(View(), c, Br(-sign, Br(-sign, d, B, Br(-sign, f, e, g)), A, r))
      modifies this, mem.Keys`left, mem.Keys`right, mem.Keys`parent, mem.Keys`balance
      ensures E == e && Sync() && At(View(), c, Br(-sign, Br(-sign, d, B, f), E, Br(-sign, g, A, r)))
      ensures DoubleBalances(old(mem), mem, A, B, E, sign)
      ensures rotations == old(rotations) + 1
    {
      hide At, Linked, CtxLinked, Distinct, CtxDistinct, Nodes, Br, ReplaceChild, SetChild, Sync, DoubleRotated,
        DoubleSite, DoubleBalances;
      ghost var h := View();
      AtParts(h, c, -sign, Br(-sign, d, B, Br(-sign, f, e, g)), A, r);
      DoubleParts(mem, sign, CtxParent(c), d, B, f, e, g, A, r);
      DoubleDistinct(-sign, d, B, f, e, g, A, r);
      var P;
      E, P := DoubleRotateNodes(B, A, sign, e, Root(f), Root(g));
      DoubleShape(h, mem, sign, c, d, B, f, e, g, A, r);
      PutReplaceChild(P, A, E);
      rotations := rotations + 1;
    }

    // ----- insertion -----

    /** The case of growth where B leans the way A does. */
    method GrowSingle(B: Node, A: Node, sign: int, ghost c: Ctx, ghost t: Tree, ghost r: Tree) returns (ghost t': Tree)
      requires Sync() && Grown(View(), c, sign, t, A, r) && t.node == B && B in mem
      requires mem[A].balance == sign && mem[B].balance == sign
      modifies this, mem.Keys`left, mem.Keys`right, mem.Keys`parent, mem.Keys`balance
      ensures rotations == old(rotations) + 1
      ensures Sync() && mem.Keys == old(mem.Keys)
      ensures At(View(), c, t') && InOrder(t') == InOrder(Br(sign, t, A, r))
      ensures Balanced(mem, t') && CtxBalanced(mem, c, Height(t'))
    {
      hide At, Balanced, CtxBalanced, Height, InOrder, Br, Grown;
      ghost var h := View();
      GrownAt(h, c, sign, t, A, r);
      ghost var d, e := Side(t, sign), Side(t, -sign);
      BrSides(t, sign);
      Rotate(A, -sign, c, d, B, e, r);
      t' := Br(sign, d, B, Br(sign, e, A, r));
      RotateInOrder(sign, d, B, e, A, r);
      ghost var h1 := View();
      AdjustBalance(A, -sign);
      ghost var h2 := View();
      BalanceOnly(h1, h2, c, t', A);
      AdjustBalance(B, -sign);
      BalanceOnly(h2, View(), c, t', B);
      GrowthSingle(h, mem, c, sign, d, B, e, A, r);
    }

    /** The case of growth where B leans against A. */
    method GrowDouble(B: Node, A: Node, sign: int, ghost c: Ctx, ghost t: Tree, ghost r: Tree) returns (ghost t': Tree)
      requires Sync() && Grown(View(), c, sign, t, A, r) && t.node == B && B in mem
      requires mem[A].balance == sign && mem[B].balance == -sign
      modifies this, mem.Keys`left, mem.Keys`right, mem.Keys`parent, mem.Keys`balance
      ensures rotations == old(rotations) + 1
      ensures Sync() && mem.Keys == old(mem.Keys)
      ensures At(View(), c, t') && InOrder(t') == InOrder(Br(sign, t, A, r))
      ensures Balanced(mem, t') && CtxBalanced(mem, c, Height(t'))
    {
      hide At, Balanced, CtxBalanced, Height, InOrder, Br, Grown;
      ghost var h := View();
      GrownAt(h, c, sign, t, A, r);
      ghost var d, x := Side(t, sign), Side(t, -sign);
      BrSides(t, sign);
      TallSide(h.mem, sign, d, B, x);
      ghost var f, E, g := Side(x, sign), x.node, Side(x, -sign);
      BrSides(x, sign);
      var _ := DoubleRotate(B, A, -sign, c, d, f, E, g, r);
      t' := Br(sign, Br(sign, d, B, f), E, Br(sign, g, A, r));
      DoubleInOrder(sign, d, B, f, E, g, A, r);
      GrowthDouble(h, mem, c, sign, d, B, f, E, g, A, r);
    }

    /** Handles the growth by one of the subtree `node` on side `sign` of `parent`. The result
        says whether the whole tree is in order; if not, `parent` has grown by one in turn. */
    method HandleSubtreeGrowth(node: Node, parent: Node, sign: int, ghost c: Ctx, ghost t: Tree, ghost r: Tree)
      returns (done: bool, ghost t': Tree)
      requires Sync() && Grown(View(), c, sign, t, parent, r) && t.node == node
      requires node in mem && mem[node].balance != 0
      modifies this, mem.Keys`left, mem.Keys`right, mem.Keys`parent, mem.Keys`balance
      ensures rotations <= old(rotations) + 1 && (!done ==> rotations == old(rotations))
      ensures Sync() && mem.Keys == old(mem.Keys)
      ensures At(View(), c, t') && InOrder(t') == InOrder(Br(sign, t, parent, r)) && Balanced(mem, t')
      ensures done ==> CtxBalanced(mem, c, Height(t'))
      // No rotation yet: only one balance factor has changed.
      ensures !done ==> t' == Br(sign, t, parent, r) && Root(t') == parent && CtxBalanced(mem, c, Height(t') - 1)
      ensures !done ==> parent in mem && View() == old(View()).(mem := SetBalance(old(mem), parent, sign))
    {
      hide Balanced, CtxBalanced, Height, InOrder, Br, At;
      GrownBalances(View(), c, sign, t, parent, r);
      var oldBalance := parent.balance;

      if oldBalance == 0 {
        t' := Br(sign, t, parent, r);
        ghost var h := View();
        AdjustBalance(parent, sign);
        GrowthLevel(h, View(), c, sign, t, parent, r);
        BrView(mem, sign, t, parent, r, null);
        return false, t';
      }

      var newBalance := oldBalance + sign;

      if newBalance == 0 {
        t' := Br(sign, t, parent, r);
        ghost var h := View();
        AdjustBalance(parent, sign);
        GrowthAbsorbed(h, View(), c, sign, t, parent, r);
        return true, t';
      }

      if sign * node.balance > 0 {
        t' := GrowSingle(node, parent, sign, c, t, r);
      } else {
        t' := GrowDouble(node, parent, sign, c, t, r);
      }
      done := true;
    }

    /** The first level above a new leaf, where no rotation is needed. The result says whether
        the parent has grown. */
    method FirstLevelUp(inserted: Node, parent: Node, ghost c: Ctx) returns (grown: bool, ghost t': Tree)
      requires Sync() && !c.Top? && parent == c.node && inserted in mem
      requires At(View(), c, Branch(Leaf, inserted, Leaf)) && Balanced(mem, Branch(Leaf, inserted, Leaf))
      requires CtxBalanced(mem, c, 0)
      modifies this`mem, mem.Keys`balance
      ensures Sync() && mem.Keys == old(mem.Keys) && parent in mem && Root(t') == parent
      ensures At(View(), c.up, t') && Balanced(mem, t') && Plug(c.up, t') == Plug(c, Branch(Leaf, inserted, Leaf))
      ensures grown <==> mem[parent].balance != 0
      ensures CtxBalanced(mem, c.up, if grown then Height(t') - 1 else Height(t'))
    {
      hide At, Balanced, CtxBalanced, Plug, Br, Grown, Linked;
      ghost var t, h := Branch(Leaf, inserted, Leaf), View();
      GrownUp(h, c, t);
      ghost var sign := CtxSign(c);
      FirstLevel(h, c.up, sign, inserted, parent, CtxSibling(c));
      if inserted == parent.left { AdjustBalance(parent, -1); } else { AdjustBalance(parent, 1); }
      t' := Br(sign, t, parent, CtxSibling(c));
      BrView(mem, sign, t, parent, CtxSibling(c), null);
      grown := parent.balance != 0;
      if !grown {
        GrowthAbsorbed(h, View(), c.up, sign, t, parent, CtxSibling(c));
      } else {
        GrowthLevel(h, View(), c.up, sign, t, parent, CtxSibling(c));
      }
    }

    /** Goes up the tree from a subtree that has grown until the tree is in order. */
    method GrowUpwards(start: Node, ghost c: Ctx, ghost s: Tree) returns (ghost t': Tree)
      requires Sync() && At(View(), c, s) && Balanced(mem, s) && CtxBalanced(mem, c, Height(s) - 1)
      requires Root(s) == start && start in mem && mem[start].balance != 0
      modifies this, mem.Keys`left, mem.Keys`right, mem.Keys`parent, mem.Keys`balance
      ensures rotations <= old(rotations) + 1
      ensures Sync() && mem.Keys == old(mem.Keys)
      ensures At(View(), Top, t') && Balanced(mem, t') && InOrder(t') == InOrder(Plug(c, s))
    {
      hide At, Balanced, CtxBalanced, Plug, InOrder, Height, Br, Grown, Linked;
      ghost var ctx, t := c, s;
      ghost var order := InOrder(Plug(c, s));
      var node: Node;
      var parent: Node? := start;
      var done := false;
      while !done
        invariant Sync() && mem.Keys == old(mem.Keys)
        invariant rotations <= old(rotations) + (if done then 1 else 0)
        invariant At(View(), ctx, t) && Balanced(mem, t) && InOrder(Plug(ctx, t)) == order
        invariant !done ==> Root(t) == parent && parent in mem && mem[parent].balance != 0
        invariant !done ==> CtxBalanced(mem, ctx, Height(t) - 1)
        invariant done ==> CtxBalanced(mem, ctx, Height(t))
        decreases if done then 0 else 1, ctx
      {
        node := parent;
        parent := node.parent;
        AtRoot(View(), ctx, t);
        if parent == null {
          t' := t;
          WholeAtTop(View(), t);
          return;
        }
        GrownUp(View(), ctx, t);
        ghost var t0 := Br(CtxSign(ctx), t, parent, CtxSibling(ctx));
        if node == parent.left {
          done, t := HandleSubtreeGrowth(node, parent, -1, ctx.up, t, CtxSibling(ctx));
        } else {
          done, t := HandleSubtreeGrowth(node, parent, 1, ctx.up, t, CtxSibling(ctx));
        }
        SameOrder(ctx.up, t, t0);
        ctx := ctx.up;
      }
      Whole(View(), ctx, t);
      t' := Plug(ctx, t);
    }

    /** A new leaf has no children. */
    method ClearLinks(n: Node)
      requires Sync() && n in mem
      modifies this`mem, n`left, n`right
      ensures Sync() && mem == old(mem)[n := old(mem)[n].(left := null, right := null)]
    {
      n.left, n.right := null, null;
      mem := mem[n := mem[n].(left := null, right := null)];
    }

    /** Rebalances the tree after `inserted` has been linked in at `c`. Its own links are
        cleared here, so the caller need not have done so. */
    method Bain(inserted: Node, ghost c: Ctx) returns (ghost t': Tree)
      requires Sync() && inserted in mem && mem[inserted].parent == CtxParent(c) && mem[inserted].balance == 0
      requires At(View().(mem := mem[inserted := Rec(null, null, CtxParent(c), 0)]), c, Branch(Leaf, inserted, Leaf))
      requires CtxBalanced(mem, c, 0)
      modifies this, mem.Keys`left, mem.Keys`right, mem.Keys`parent, mem.Keys`balance
      ensures rotations <= old(rotations) + 1
      ensures Sync() && mem.Keys == old(mem.Keys)
      ensures At(View(), Top, t') && Balanced(mem, t')
      ensures InOrder(t') == InOrder(Plug(c, Branch(Leaf, inserted, Leaf)))
    {
      hide At, Balanced, CtxBalanced, Plug, InOrder, Height, Linked;
      NewLeaf(View(), c, inserted);
      ClearLinks(inserted);
      var parent := inserted.parent;
      hide Sync;
      if parent == null {
        t' := Branch(Leaf, inserted, Leaf);
        WholeAtTop(View(), t');
        return;
      }
      var grown;
      ghost var t;
      grown, t := FirstLevelUp(inserted, parent, c);
      if !grown {
        Whole(View(), c.up, t);
        t' := Plug(c.up, t);
        return;
      }
      assert mem.Keys == old(mem.Keys);
      t' := GrowUpwards(parent, c.up, t);
    }

    // ----- the tree as a sorted table -----

    /** The nodes in use are linked into `t`, which is balanced and sorted by key. */
    ghost predicate Holds(t: Tree)
      reads this, mem.Keys`left, mem.Keys`right, mem.Keys`parent, mem.Keys`balance
    {
      && Sync() && mem.Keys == Nodes(t)
      && At(View(), Top, t) && Balanced(mem, t) && Sorted(InOrder(t))
    }

    /** Looks a key up. `steps` counts the comparisons. */
    method Lookup(key: Key, ghost t: Tree) returns (found: Node?, ghost steps: nat)
      requires Holds(t)
      ensures found != null ==> found in Nodes(t) && found.key == key
      ensures found == null ==> forall n :: n in Nodes(t) ==> n.key != key
      ensures steps <= Height(t)
    {
      steps := 0;
      ghost var c, s := Top, t;
      found := root;
      while found != null
        invariant Search(View(), c, s, t, key) && found == Root(s)
        invariant steps + Height(s) <= Height(t)
        decreases s
      {
        SearchStep(View(), c, s, t, key);
        steps := steps + 1;
        var res := Compare(key, found.key);
        if res < 0 {
          c, s := InLeft(c, s.node, s.right), s.left;
          found := found.left;
        } else if res > 0 {
          c, s := InRight(c, s.left, s.node), s.right;
          found := found.right;
        } else {
          return;
        }
      }
      SearchEnd(View(), c, s, t, key);
    }

    /** The descent of an insertion: finds an equal item, or the link to hang a new one on. */
    method Descend(item: Node, ghost t: Tree) returns (existing: Node?, parent: Node?, res: int, ghost c: Ctx)
      requires Holds(t)
      ensures existing != null ==> existing in Nodes(t) && existing.key == item.key
      ensures existing == null ==> Search(View(), c, Leaf, t, item.key) && (forall n :: n in Nodes(t) ==> n.key != item.key)
      ensures existing == null ==> parent == CtxParent(c) && (res < 0 <==> c.InLeft?)
    {
      hide At, Balanced, CtxBalanced, Sorted, Nodes, InOrder;
      existing, parent, res := null, null, 0;
      var cur: Node? := root;
      ghost var s := t;
      c := Top;
      SearchStart(View(), t, item.key);
      while cur != null
        invariant Search(View(), c, s, t, item.key) && cur == Root(s) && parent == CtxParent(c)
        invariant res < 0 <==> c.InLeft?
        decreases s
      {
        SearchStep(View(), c, s, t, item.key);
        res := Compare(item.key, cur.key);
        if res < 0 {
          c, s := InLeft(c, s.node, s.right), s.left;
          parent, cur := cur, cur.left;
        } else if res > 0 {
          c, s := InRight(c, s.left, s.node), s.right;
          parent, cur := cur, cur.right;
        } else {
          existing := cur;
          return;
        }
      }
      SearchEnd(View(), c, s, t, item.key);
    }

    /** Points the link at the end of the descent `c` to `item`, as a child of `parent`. */
    method HangOn(item: Node, parent: Node?, res: int, ghost c: Ctx)
      requires Sync() && item !in mem && parent == CtxParent(c) && (res < 0 <==> c.InLeft?)
      requires parent != null ==> parent in mem
      modifies this`root, this`mem, Just(parent)`left, Just(parent)`right, item`parent, item`balance
      ensures Sync() && View() == WithLeaf(old(View()), c, item, item.left, item.right)
    {
      if parent == null {
        root := item;
      } else if res < 0 {
        parent.left := item;
        mem := SetChild(mem, parent, -1, item);
      } else {
        parent.right := item;
        mem := SetChild(mem, parent, 1, item);
      }
      item.parent := parent;
      item.balance := 0;
      mem := mem[item := Rec(item.left, item.right, parent, 0)];
    }

    /** Inserts an item, or finds the one already there with an equal key. At most one
        rotation, single or double, is made. */
    method Insert(item: Node, ghost t: Tree) returns (existing: Node?, ghost t': Tree, ghost at: nat)
      requires Holds(t) && item !in mem
      modifies this, mem.Keys`left, mem.Keys`right, mem.Keys`parent, mem.Keys`balance
      modifies item`left, item`right, item`parent, item`balance
      ensures existing != null ==> existing in Nodes(t) && existing.key == item.key
      ensures existing != null ==> View() == old(View()) && t' == t && Holds(t')
      ensures rotations <= old(rotations) + (if existing == null then 1 else 0)
      ensures existing == null ==> forall n :: n in Nodes(t) ==> n.key != item.key
      ensures existing == null ==> Holds(t') && mem.Keys == old(mem.Keys) + {item}
      ensures existing == null ==> at <= |InOrder(t)| && InOrder(t') == InOrder(t)[..at] + [item] + InOrder(t)[at..]
    {
      hide At, Balanced, CtxBalanced, Sorted, Search, InOrder, Nodes, WithLeaf;
      t', at := t, 0;
      var parent, res;
      ghost var c;
      existing, parent, res, c := Descend(item, t);
      if existing != null {
        return;
      }
      SearchParts(View(), c, t, item);
      at := |Before(c)|;
      LinkLeaf(View(), c, t, item, item.left, item.right);
      HangOn(item, parent, res, c);
      LinkedKeys(old(View()), c, item, item.left, item.right);
      hide Sync;
      t' := Bain(item, c);
      assert mem.Keys == old(mem.Keys) + {item};
      NodesOfOrder(t, t', Before(c), item, After(c));
    }

    // ----- deletion -----

    /** The balance factors after the rotation of a shrunk subtree, where B now stands above A. */
    method LevelShrunk(B: Node, A: Node, sign: int, ghost c: Ctx, ghost t: Tree) returns (shorter: bool)
      requires Sync() && At(View(), c, t) && {A, B} <= mem.Keys && A != B
      requires mem[A].balance == sign && (mem[B].balance == 0 || mem[B].balance == sign)
      modifies this`mem, A`balance, B`balance
      ensures Sync() && At(View(), c, t) && mem.Keys == old(mem.Keys)
      ensures OtherBalances(old(mem), mem, {A, B}) && (shorter <==> old(mem)[B].balance != 0)
      ensures if shorter then mem[A].balance == mem[B].balance == 0
              else mem[A].balance == sign && mem[B].balance == -sign
    {
      hide At;
      ghost var h := View();
      shorter := B.balance != 0;
      if !shorter {
        AdjustBalance(B, -sign);
        BalanceOnly(h, View(), c, t, B);
      } else {
        AdjustBalance(A, -sign);
        ghost var h1 := View();
        BalanceOnly(h, h1, c, t, A);
        AdjustBalance(B, -sign);
        BalanceOnly(h1, View(), c, t, B);
      }
    }

    /** The case of shrinkage where B, on the heavy side of A, does not lean against it. */
    method ShrinkSingleAt(B: Node, A: Node, sign: int, ghost c: Ctx, ghost t: Tree, ghost r: Tree)
      returns (shorter: bool, ghost t': Tree)
      requires Sync() && Shrunk(View(), c, sign, t, A, r) && Root(r) == B && B in mem
      requires mem[A].balance == sign && (mem[B].balance == 0 || mem[B].balance == sign)
      modifies this, mem.Keys`left, mem.Keys`right, mem.Keys`parent, mem.Keys`balance
      ensures Sync() && mem.Keys == old(mem.Keys)
      ensures At(View(), c, t') && InOrder(t') == InOrder(Br(sign, r, A, t)) && Root(t') == B
      ensures Balanced(mem, t') && CtxBalanced(mem, c, if shorter then Height(t') + 1 else Height(t'))
    {
      hide At, Balanced, CtxBalanced, Height, InOrder, Br, Shrunk;
      ghost var h := View();
      ShrunkAt(h, c, sign, t, A, r);
      ghost var d, e := Side(r, sign), Side(r, -sign);
      BrSides(r, sign);
      Rotate(A, -sign, c, d, B, e, t);
      t' := Br(sign, d, B, Br(sign, e, A, t));
      BrView(mem, sign, d, B, Br(sign, e, A, t), null);
      RotateInOrder(sign, d, B, e, A, t);
      shorter := LevelShrunk(B, A, sign, c, t');
      ShrinkSingle(h, mem, c, sign, d, B, e, A, t);
    }

    /** The case of shrinkage where B leans against A. */
    method ShrinkDoubleAt(B: Node, A: Node, sign: int, ghost c: Ctx, ghost t: Tree, ghost r: Tree)
      returns (E: Node, ghost t': Tree)
      requires Sync() && Shrunk(View(), c, sign, t, A, r) && Root(r) == B && B in mem
      requires mem[A].balance == sign && mem[B].balance == -sign
      modifies this, mem.Keys`left, mem.Keys`right, mem.Keys`parent, mem.Keys`balance
      ensures Sync() && mem.Keys == old(mem.Keys)
      ensures At(View(), c, t') && InOrder(t') == InOrder(Br(sign, r, A, t)) && Root(t') == E
      ensures Balanced(mem, t') && CtxBalanced(mem, c, Height(t') + 1)
    {
      hide At, Balanced, CtxBalanced, Height, InOrder, Br, Shrunk;
      ghost var h := View();
      ShrunkAt(h, c, sign, t, A, r);
      ghost var d, x := Side(r, sign), Side(r, -sign);
      BrSides(r, sign);
      TallSide(h.mem, sign, d, B, x);
      ghost var f, e, g := Side(x, sign), x.node, Side(x, -sign);
      BrSides(x, sign);
      E := DoubleRotate(B, A, -sign, c, d, f, e, g, t);
      t' := Br(sign, Br(sign, d, B, f), E, Br(sign, g, A, t));
      BrView(mem, sign, Br(sign, d, B, f), E, Br(sign, g, A, t), null);
      DoubleInOrder(sign, d, B, f, E, g, A, t);
      ShrinkDouble(h, mem, c, sign, d, B, f, E, g, A, t);
    }

    /** Rotates where the other subtree has become too heavy. */
    method ShrinkHeavy(parent: Node, sign: int, ghost c: Ctx, ghost t: Tree, ghost r: Tree)
      returns (node: Node, shorter: bool, ghost t': Tree)
      requires Sync() && Shrunk(View(), c, sign, t, parent, r) && mem[parent].balance == sign
      modifies this, mem.Keys`left, mem.Keys`right, mem.Keys`parent, mem.Keys`balance
      ensures Sync() && mem.Keys == old(mem.Keys)
      ensures At(View(), c, t') && InOrder(t') == InOrder(Br(sign, r, parent, t)) && Root(t') == node
      ensures Balanced(mem, t') && CtxBalanced(mem, c, if shorter then Height(t') + 1 else Height(t'))
    {
      hide At, Balanced, CtxBalanced, Height, InOrder, Br;
      ShrunkAt(View(), c, sign, t, parent, r);
      TallSibling(View(), c, sign, t, parent, r);
      AtParts(View(), c, sign, r, parent, t);
      node := GetChild(parent, sign);
      if sign * node.balance >= 0 {
        shorter, t' := ShrinkSingleAt(node, parent, sign, c, t, r);
      } else {
        node, t' := ShrinkDoubleAt(node, parent, sign, c, t, r);
        shorter := true;
      }
    }

    /** Handles the shrinkage by one of the subtree of `parent` on the side away from `sign`.
        Returns null if the whole tree is in order now, and otherwise the next ancestor, whose
        left or right subtree, as `leftDeleted` says, has shrunk in turn. */
    method HandleSubtreeShrink(parent: Node, sign: int, ghost c: Ctx, ghost t: Tree, ghost r: Tree)
      returns (up: Node?, leftDeleted: bool, ghost t': Tree)
      requires Sync() && Shrunk(View(), c, sign, t, parent, r)
      modifies this, mem.Keys`left, mem.Keys`right, mem.Keys`parent, mem.Keys`balance
      ensures Sync() && mem.Keys == old(mem.Keys)
      ensures At(View(), c, t') && InOrder(t') == InOrder(Br(sign, r, parent, t)) && Balanced(mem, t')
      ensures up == null ==> CtxBalanced(mem, c, Height(t'))
      ensures up != null ==> up == CtxParent(c) && (leftDeleted <==> c.InLeft?) && CtxBalanced(mem, c, Height(t') + 1)
    {
      hide At, Balanced, CtxBalanced, Height, InOrder, Br;
      ghost var h := View();
      ShrunkAt(h, c, sign, t, parent, r);
      var node: Node;
      var oldBalance := parent.balance;
      leftDeleted := false;

      if oldBalance == 0 {
        t' := Br(sign, r, parent, t);
        AdjustBalance(parent, sign);
        ShrinkLevel(h, View(), c, sign, t, parent, r);
        return null, false, t';
      }

      var newBalance := oldBalance + sign;

      if newBalance == 0 {
        t' := Br(sign, r, parent, t);
        AdjustBalance(parent, sign);
        ShrinkPassedOn(h, View(), c, sign, t, parent, r);
        BrView(mem, sign, r, parent, t, null);
        node := parent;
      } else {
        var shorter;
        node, shorter, t' := ShrinkHeavy(parent, sign, c, t, r);
        if !shorter {
          return null, false, t';
        }
      }
      assert mem.Keys == old(mem.Keys);
      up := node.parent;
      ParentSide(View(), c, t');
      if up != null {
        leftDeleted := node == up.left;
      }
    }

    /** The least node of a tree that has something on its left, and the node above it. */
    method LeftSpine(top: Node, ghost r: Tree, ghost p: Node?) returns (Y: Node, Q: Node)
      requires Sync() && r.Branch? && r.left.Branch? && top == r.node && Linked(mem, r, p)
      ensures Y == MinTree(r).node && Q == MinParent(r) && Q in mem && Y in mem
      ensures mem[Y].right == Root(MinTree(r).right)
    {
      Q := top;
      Y := Q.left;
      ghost var s, q := r, p;
      while Y.left != null
        invariant s.Branch? && s.left.Branch? && Linked(mem, s, q) && Q == s.node && Y == s.left.node
        invariant MinTree(s) == MinTree(r) && MinParent(s) == MinParent(r)
        decreases s
      {
        q := Q;
        Q := Y;
        Y := Y.left;
        s := s.left;
      }
    }

    /** The link updates that put the successor in the node's place when it is deeper down. */
    method SwapFar(X: Node, Y: Node, Q: Node, ghost Z: Node, ghost T: Node, ghost B: Node?)
      requires Sync() && FarSite(mem, X, Y, Q, Z, T, B)
      modifies {Q, Y}`left, {Y}`right, {Y, Z, T}`parent, {Y}`balance, Just(B)`parent
      ensures Y.left == Z && Y.right == T && Y.parent == mem[X].parent && Y.balance == mem[X].balance
      ensures Q.left == B && Z.parent == Y && T.parent == Y
      ensures B != null ==> B.parent == Q
    {
      Q.left := Y.right;
      if Q.left != null { Q.left.parent := Q; }
      Y.right := X.right;
      X.right.parent := Y;

      Y.left := X.left;
      X.left.parent := Y;
      Y.parent := X.parent;
      Y.balance := X.balance;
    }

    method SwapNear(X: Node, Y: Node, ghost Z: Node)
      requires Sync() && {X, Y, Z} <= mem.Keys && mem[X].left == Z && X != Y && X != Z && Y != Z
      modifies {Y}`left, {Y, Z}`parent, {Y}`balance
      ensures Y.left == Z && Y.parent == mem[X].parent && Y.balance == mem[X].balance && Z.parent == Y
    {
      Y.left := X.left;
      X.left.parent := Y;
      Y.parent := X.parent;
      Y.balance := X.balance;
    }

    method SwapNodes(X: Node, ghost l: Tree, ghost r: Tree, ghost p: Node?) returns (Y: Node, ret: Node, leftDeleted: bool)
      requires Sync() && TwoChildren(mem, l, X, r, p)
      modifies this`mem, mem.Keys`left, mem.Keys`right, mem.Keys`parent, mem.Keys`balance
      ensures Sync() && Swapped(old(mem), mem, X, l.node, r)
      ensures Y == MinTree(r).node && (leftDeleted <==> r.left.Branch?)
      ensures ret == if leftDeleted then MinParent(r) else Y
    {
      hide MinTree, MinParent, Swapped, Linked, Distinct;
      ghost var m := mem;
      Y := X.right;
      SpineTop(m, r, X);
      leftDeleted := Y.left != null;
      if !leftDeleted {
        ret := Y;
        SwapNear(X, Y, l.node);
        Refresh();
        NearSwapped(m, mem, l, X, r, p);
      } else {
        Y, ret := LeftSpine(X.right, r, X);
        FarSiteOf(m, l, X, r, p);
        SwapFar(X, Y, ret, l.node, r.node, Root(MinTree(r).right));
        Refresh();
        FarSwapped(m, mem, l, X, r, p);
      }
    }

    /** Swaps X, which has two children, with its in-order successor and unlinks it. Returns
        the node whose left or right subtree has become shorter. */
    method SwapWithSuccessor(X: Node, ghost c: Ctx, ghost l: Tree, ghost r: Tree) returns (ret: Node, leftDeleted: bool)
      requires Sync() && l.Branch? && r.Branch? && At(View(), c, Branch(l, X, r))
      modifies this, mem.Keys`left, mem.Keys`right, mem.Keys`parent, mem.Keys`balance
      ensures Sync() && mem.Keys == old(mem.Keys)
      ensures At(View(), c, Branch(l, MinTree(r).node, RemoveMin(r)))
      ensures leftDeleted <==> r.left.Branch?
      ensures ret == if leftDeleted then MinParent(r) else MinTree(r).node
      ensures {X, MinTree(r).node} <= mem.Keys && mem[MinTree(r).node].balance == old(mem)[X].balance
      ensures OtherBalances(old(mem), mem, {MinTree(r).node})
    {
      hide At, MinTree, RemoveMin, Swapped, TwoChildren, ReplaceChild;
      ghost var h := View();
      TwoChildrenAt(h, c, l, X, r);
      var Y;
      var P := X.parent;
      Y, ret, leftDeleted := SwapNodes(X, l, r, CtxParent(c));
      SwapShape(h, mem, c, l, X, r);
      SwappedBalances(h.mem, mem, X, l, r, CtxParent(c));
      PutReplaceChild(P, X, Y);
    }

    /** Takes out a node with two children. */
    method UnlinkInner(node: Node, ghost c: Ctx, ghost s: Tree)
      returns (parent: Node, leftDeleted: bool, ghost d: Ctx, ghost b: Tree)
      requires Sync() && s.Branch? && s.node == node && s.left.Branch? && s.right.Branch?
      requires At(View(), c, s) && Balanced(mem, s) && CtxBalanced(mem, c, Height(s))
      modifies this, mem.Keys`left, mem.Keys`right, mem.Keys`parent, mem.Keys`balance
      ensures Sync() && mem.Keys == old(mem.Keys) - {node}
      ensures At(View(), d, b) && Balanced(mem, b) && CtxBalanced(mem, d, Height(b) + 1)
      ensures parent == CtxParent(d) && !d.Top? && (leftDeleted <==> d.InLeft?)
      ensures InOrder(Plug(d, b)) == Before(c) + (InOrder(s.left) + InOrder(s.right)) + After(c)
    {
      hide At, Balanced, CtxBalanced, MinTree, RemoveMin, MinParent, Spine, Height, Plug, InOrder;
      ghost var h := View();
      parent, leftDeleted := SwapWithSuccessor(node, c, s.left, s.right);
      SwapDone(h, View(), c, s);
      d, b := Spine(s.right, InRight(c, s.left, MinTree(s.right).node)), MinTree(s.right).right;
      mem := mem - {node};
    }

    /** Takes out a node that lacks a child; the other child, if any, takes its place. */
    method UnlinkOuter(node: Node, ghost c: Ctx, ghost s: Tree)
      returns (parent: Node?, leftDeleted: bool, ghost b: Tree)
      requires Sync() && s.Branch? && s.node == node && (s.left.Leaf? || s.right.Leaf?)
      requires At(View(), c, s) && Balanced(mem, s) && CtxBalanced(mem, c, Height(s))
      modifies this, mem.Keys`left, mem.Keys`right, mem.Keys`parent, mem.Keys`balance
      ensures Sync() && mem.Keys == old(mem.Keys) - {node}
      ensures At(View(), c, b) && Balanced(mem, b) && CtxBalanced(mem, c, Height(b) + 1)
      ensures parent == CtxParent(c) && (leftDeleted <==> c.InLeft?)
      ensures InOrder(Plug(c, b)) == Before(c) + (InOrder(s.left) + InOrder(s.right)) + After(c)
    {
      hide At, Balanced, CtxBalanced, Height, Plug, InOrder, BypassSite;
      b := if s.left.Branch? then s.left else s.right;
      ghost var h := View();
      BypassSiteAt(h, c, s, b);
      parent, leftDeleted := Bypass(node, c, b);
      BypassShape(h, View(), c, s, b);
      BypassBalanced(h, View(), c, s, b);
      BypassOrder(c, s, b);
      BypassGone(h, c, s, b);
      DropNode(View(), c, b, node);
      mem := mem - {node};
    }

    /** The link updates: the only child, if there is one, takes the node's place. */
    method Bypass(node: Node, ghost c: Ctx, ghost b: Tree) returns (parent: Node?, leftDeleted: bool)
      requires Sync() && BypassSite(mem, c, node, Root(b))
      modifies this, mem.Keys`left, mem.Keys`right, mem.Keys`parent
      ensures Sync() && mem.Keys == old(mem.Keys)
      ensures parent == CtxParent(c) && (leftDeleted <==> c.InLeft?)
      ensures Bypassed(old(View()), View(), c, Root(b))
    {
      var child := if node.left != null then node.left else node.right;
      parent := node.parent;
      leftDeleted := false;
      if parent != null {
        if node == parent.left {
          parent.left := child;
          leftDeleted := true;
        } else {
          parent.right := child;
          leftDeleted := false;
        }
        if child != null { child.parent := parent; }
      } else {
        if child != null { child.parent := parent; }
        root := child;
      }
      Refresh();
    }

    /** Goes up the tree from a subtree that has shrunk until the tree is in order. */
    method ShrinkUpwards(start: Node?, left: bool, ghost c: Ctx, ghost b: Tree) returns (ghost t': Tree)
      requires Sync() && At(View(), c, b) && Balanced(mem, b) && CtxBalanced(mem, c, Height(b) + 1)
      requires start == CtxParent(c) && (left <==> c.InLeft?)
      modifies this, mem.Keys`left, mem.Keys`right, mem.Keys`parent, mem.Keys`balance
      ensures Sync() && mem.Keys == old(mem.Keys)
      ensures At(View(), Top, t') && Balanced(mem, t') && InOrder(t') == InOrder(Plug(c, b))
    {
      hide At, Balanced, CtxBalanced, Plug, InOrder, Height, Br, Shrunk;
      ghost var ctx, t := c, b;
      ghost var order := InOrder(Plug(c, b));
      var parent, leftDeleted := start, left;
      if parent == null {
        AtTop(mem, c, Height(b) + 1, Height(b));
      }
      while parent != null
        invariant Sync() && mem.Keys == old(mem.Keys)
        invariant At(View(), ctx, t) && Balanced(mem, t) && InOrder(Plug(ctx, t)) == order
        invariant parent != null ==> parent == CtxParent(ctx) && (leftDeleted <==> ctx.InLeft?)
        invariant parent != null ==> CtxBalanced(mem, ctx, Height(t) + 1)
        invariant parent == null ==> CtxBalanced(mem, ctx, Height(t))
        decreases if parent == null then 0 else 1, ctx
      {
        ShrunkUp(View(), ctx, t);
        ghost var t0 := Br(-CtxSign(ctx), CtxSibling(ctx), parent, t);
        if leftDeleted {
          parent, leftDeleted, t := HandleSubtreeShrink(parent, 1, ctx.up, t, CtxSibling(ctx));
        } else {
          parent, leftDeleted, t := HandleSubtreeShrink(parent, -1, ctx.up, t, CtxSibling(ctx));
        }
        SameOrder(ctx.up, t, t0);
        ctx := ctx.up;
      }
      Whole(View(), ctx, t);
      SameOrder(ctx, t, t);
      t' := Plug(ctx, t);
    }

    /** Removes a node from the tree. */
    method Remv(node: Node, ghost t: Tree) returns (ghost t': Tree, ghost at: nat)
      requires Holds(t) && node in Nodes(t)
      modifies this, mem.Keys`left, mem.Keys`right, mem.Keys`parent, mem.Keys`balance
      ensures Holds(t') && mem.Keys == old(mem.Keys) - {node}
      ensures at < |InOrder(t)| && InOrder(t)[at] == node
      ensures InOrder(t') == InOrder(t)[..at] + InOrder(t)[at + 1..]
    {
      hide At, Balanced, CtxBalanced, Plug, InOrder, Height, Sorted, Nodes;
      ghost var c, s := FindPlace(t, node, Top);
      PlaceAt(View(), t, c, s);
      at := |Before(c)| + |InOrder(s.left)|;
      ghost var d, b := c, s;
      var parent: Node?, leftDeleted;
      if node.left != null && node.right != null {
        parent, leftDeleted, d, b := UnlinkInner(node, c, s);
      } else {
        parent, leftDeleted, b := UnlinkOuter(node, c, s);
      }
      t' := ShrinkUpwards(parent, leftDeleted, d, b);
      assert mem.Keys == old(mem.Keys) - {node};
      Removed(t, t', c, s);
    }
  }
}
