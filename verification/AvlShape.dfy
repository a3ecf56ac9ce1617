/** The heap nodes of the AVL tree and the mathematical tree they are linked into.
    `Mem` is a snapshot of the nodes' fields, `Tree` a tree of node identities and `Ctx` the
    path from a subtree up to the root; the predicates say that the pointers and the stored
    balance factors of a snapshot agree with a tree. */
module AvlShape {
  import opened Keys

  /** `struct avl_tree_node` with the item it is embedded in. The packed parent and balance
      word is two fields. `freed` says that the memory has been released. */
  class Node {
    var left: Node?
    var right: Node?
    var parent: Node?
    var balance: int
    var freed: bool
    const key: Key

    constructor (k: Key)
      ensures key == k && !freed
    {
      key := k;
      left, right, parent := null, null, null;
      balance, freed := 0, false;
    }
  }

  datatype Rec = Rec(left: Node?, right: Node?, parent: Node?, balance: int)

  type Mem = map<Node, Rec>

  datatype Tree = Leaf | Branch(left: Tree, node: Node, right: Tree)

  datatype Ctx = Top | InLeft(up: Ctx, node: Node, right: Tree) | InRight(up: Ctx, left: Tree, node: Node)

  // ----- trees -----

  function Root(t: Tree): Node? {
    if t.Leaf? then null else t.node
  }

  ghost function Nodes(t: Tree): (ns: set<Node>)
    ensures t.Branch? ==> t.node in ns
  {
    match t
    case Leaf => {}
    case Branch(l, n, r) => Nodes(l) + {n} + Nodes(r)
  }

  function Max(a: int, b: int): int {
    if a < b then b else a
  }

  ghost function Height(t: Tree): nat {
    match t
    case Leaf => 0
    case Branch(l, _, r) => 1 + Max(Height(l), Height(r))
  }

  ghost function InOrder(t: Tree): seq<Node> {
    match t
    case Leaf => []
    case Branch(l, n, r) => InOrder(l) + [n] + InOrder(r)
  }

  ghost predicate Distinct(t: Tree) {
    match t
    case Leaf => true
    case Branch(l, n, r) =>
      n !in Nodes(l) && n !in Nodes(r) && Nodes(l) !! Nodes(r) && Distinct(l) && Distinct(r)
  }

  /** The pointers of the nodes of `t` make exactly `t`, hanging below `p`. */
  ghost predicate Linked(m: Mem, t: Tree, p: Node?) {
    match t
    case Leaf => true
    case Branch(l, n, r) =>
      && n in m && m[n].left == Root(l) && m[n].right == Root(r) && m[n].parent == p
      && Linked(m, l, n) && Linked(m, r, n)
  }

  /** Every stored balance factor is the height difference, and is -1, 0 or 1. */
  ghost predicate Balanced(m: Mem, t: Tree) {
    match t
    case Leaf => true
    case Branch(l, n, r) =>
      && n in m && -1 <= m[n].balance <= 1 && m[n].balance == Height(r) - Height(l)
      && Balanced(m, l) && Balanced(m, r)
  }

  // ----- contexts -----

  function CtxParent(c: Ctx): Node? {
    if c.Top? then null else c.node
  }

  /** The side the hole is on, and what is on the other side. */
  function CtxSign(c: Ctx): int {
    if c.InLeft? then -1 else 1
  }

  function CtxSibling(c: Ctx): Tree
    requires !c.Top?
  {
    if c.InLeft? then c.right else c.left
  }

  ghost function CtxNodes(c: Ctx): (ns: set<Node>)
    ensures !c.Top? ==> c.node in ns
  {
    match c
    case Top => {}
    case InLeft(up, n, r) => CtxNodes(up) + {n} + Nodes(r)
    case InRight(up, l, n) => CtxNodes(up) + {n} + Nodes(l)
  }

  function CtxRoot(c: Ctx, hole: Node?): Node? {
    if c.Top? then hole else CtxRoot(c.up, c.node)
  }

  function Plug(c: Ctx, t: Tree): Tree {
    match c
    case Top => t
    case InLeft(up, n, r) => Plug(up, Branch(t, n, r))
    case InRight(up, l, n) => Plug(up, Branch(l, n, t))
  }

  ghost predicate CtxDistinct(c: Ctx) {
    match c
    case Top => true
    case InLeft(up, n, s) =>
      n !in Nodes(s) && n !in CtxNodes(up) && Nodes(s) !! CtxNodes(up) && Distinct(s) && CtxDistinct(up)
    case InRight(up, s, n) =>
      n !in Nodes(s) && n !in CtxNodes(up) && Nodes(s) !! CtxNodes(up) && Distinct(s) && CtxDistinct(up)
  }

  ghost predicate CtxLinked(m: Mem, c: Ctx, hole: Node?) {
    match c
    case Top => true
    case InLeft(up, n, r) =>
      && n in m && m[n].left == hole && m[n].right == Root(r) && m[n].parent == CtxParent(up)
      && Linked(m, r, n) && CtxLinked(m, up, n)
    case InRight(up, l, n) =>
      && n in m && m[n].left == Root(l) && m[n].right == hole && m[n].parent == CtxParent(up)
      && Linked(m, l, n) && CtxLinked(m, up, n)
  }

  /** The stored balance factors along the path are right if the hole has height `h`. */
  ghost predicate CtxBalanced(m: Mem, c: Ctx, h: int) {
    match c
    case Top => true
    case InLeft(up, n, r) =>
      && n in m && -1 <= m[n].balance <= 1 && m[n].balance == Height(r) - h
      && Balanced(m, r) && CtxBalanced(m, up, 1 + Max(h, Height(r)))
    case InRight(up, l, n) =>
      && n in m && -1 <= m[n].balance <= 1 && m[n].balance == h - Height(l)
      && Balanced(m, l) && CtxBalanced(m, up, 1 + Max(Height(l), h))
  }

  ghost function Before(c: Ctx): seq<Node> {
    match c
    case Top => []
    case InLeft(up, _, _) => Before(up)
    case InRight(up, l, n) => Before(up) + (InOrder(l) + [n])
  }

  ghost function After(c: Ctx): seq<Node> {
    match c
    case Top => []
    case InLeft(up, n, r) => [n] + InOrder(r) + After(up)
    case InRight(up, _, _) => After(up)
  }

  lemma Regroup<T>(a: seq<T>, b: seq<T>, c: seq<T>, d: seq<T>, e: seq<T>)
    ensures a + (b + c + d) + e == a + b + (c + d + e)
    ensures a + (b + c + d) + e == a + (b + c) + d + e
  {
  }

  lemma {:induction false} InOrderPlug(c: Ctx, t: Tree)
    ensures InOrder(Plug(c, t)) == Before(c) + InOrder(t) + After(c)
  {
    match c
    case Top =>
    case InLeft(up, n, r) =>
      InOrderPlug(up, Branch(t, n, r));
      Regroup(Before(up), InOrder(t), [n], InOrder(r), After(up));
    case InRight(up, l, n) =>
      InOrderPlug(up, Branch(l, n, t));
      Regroup(Before(up), InOrder(l), [n], InOrder(t), After(up));
  }

  lemma {:induction false} NodesPlug(c: Ctx, t: Tree)
    ensures Nodes(Plug(c, t)) == CtxNodes(c) + Nodes(t)
    ensures Root(Plug(c, t)) == CtxRoot(c, Root(t))
  {
    match c
    case Top =>
    case InLeft(up, n, r) => NodesPlug(up, Branch(t, n, r));
    case InRight(up, l, n) => NodesPlug(up, Branch(l, n, t));
  }

  lemma {:induction false} DistinctPlug(c: Ctx, t: Tree)
    ensures Distinct(Plug(c, t)) <==> Distinct(t) && CtxDistinct(c) && Nodes(t) !! CtxNodes(c)
  {
    match c
    case Top =>
    case InLeft(up, n, r) => DistinctPlug(up, Branch(t, n, r));
    case InRight(up, l, n) => DistinctPlug(up, Branch(l, n, t));
  }

  lemma {:induction false} LinkedPlug(m: Mem, c: Ctx, t: Tree)
    ensures Linked(m, Plug(c, t), null) <==> Linked(m, t, CtxParent(c)) && CtxLinked(m, c, Root(t))
  {
    match c
    case Top =>
    case InLeft(up, n, r) => LinkedPlug(m, up, Branch(t, n, r));
    case InRight(up, l, n) => LinkedPlug(m, up, Branch(l, n, t));
  }

  lemma {:induction false} BalancedPlug(m: Mem, c: Ctx, t: Tree)
    ensures Balanced(m, Plug(c, t)) <==> Balanced(m, t) && CtxBalanced(m, c, Height(t))
  {
    match c
    case Top =>
    case InLeft(up, n, r) => BalancedPlug(m, up, Branch(t, n, r));
    case InRight(up, l, n) => BalancedPlug(m, up, Branch(l, n, t));
  }

  // ----- what a change of memory elsewhere leaves alone -----

  ghost predicate SameOn(m: Mem, m': Mem, ns: set<Node>) {
    forall n :: n in ns && n in m ==> n in m' && m'[n] == m[n]
  }

  lemma {:induction false} LinkedFrame(m: Mem, m': Mem, t: Tree, p: Node?)
    requires SameOn(m, m', Nodes(t))
    ensures Linked(m, t, p) ==> Linked(m', t, p)
    ensures Balanced(m, t) ==> Balanced(m', t)
  {
    match t
    case Leaf =>
    case Branch(l, n, r) => LinkedFrame(m, m', l, n); LinkedFrame(m, m', r, n);
  }

  lemma {:induction false} CtxLinkedFrame(m: Mem, m': Mem, c: Ctx, hole: Node?)
    requires SameOn(m, m', CtxNodes(c)) && CtxLinked(m, c, hole)
    ensures CtxLinked(m', c, hole)
  {
    match c
    case Top =>
    case InLeft(up, n, r) => LinkedFrame(m, m', r, n); CtxLinkedFrame(m, m', up, n);
    case InRight(up, l, n) => LinkedFrame(m, m', l, n); CtxLinkedFrame(m, m', up, n);
  }

  // ----- order -----

  ghost predicate Sorted(s: seq<Node>) {
    forall i, j :: 0 <= i < j < |s| ==> Compare(s[i].key, s[j].key) < 0
  }
}
