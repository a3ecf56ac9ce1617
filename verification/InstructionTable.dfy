/** The instruction table: a tree sorted by name and then by operand types, in which all the
    forms of one mnemonic are found by the name alone. */
module InstructionTable {
  import opened Keys
  import opened AvlShape
  import opened AvlRotate
  import opened AvlSearch
  import opened AvlTree
  import opened AvlTraverse
  import opened AvlUnlink

  /** The nodes with a given name, in order. */
  ghost function Named(s: seq<Node>, name: seq<nat>): seq<Node> {
    if s == [] then []
    else if s[0].key.name == name then [s[0]] + Named(s[1..], name)
    else Named(s[1..], name)
  }

  ghost predicate NamesBelow(ns: seq<Node>, name: seq<nat>) {
    forall i :: 0 <= i < |ns| ==> StrCmp(name, ns[i].key.name) > 0
  }

  ghost predicate NamesAbove(ns: seq<Node>, name: seq<nat>) {
    forall i :: 0 <= i < |ns| ==> StrCmp(name, ns[i].key.name) < 0
  }

  /** The names ascend, though not strictly. */
  lemma NamesAscend(s: seq<Node>, i: int, j: int)
    requires Sorted(s) && 0 <= i <= j < |s|
    ensures StrCmp(s[i].key.name, s[j].key.name) <= 0
  {
    if i == j { StrCmpAntisymmetric(s[i].key.name, s[j].key.name); }
  }

  /** What is in a stretch between two nodes of one name has that name. */
  lemma NamesContiguous(s: seq<Node>, i: int, j: int, k: int)
    requires Sorted(s) && 0 <= i <= j <= k < |s| && s[i].key.name == s[k].key.name
    ensures s[j].key.name == s[i].key.name
  {
    NamesAscend(s, i, j);
    NamesAscend(s, j, k);
    StrCmpAntisymmetric(s[i].key.name, s[j].key.name);
    StrCmpAntisymmetric(s[j].key.name, s[k].key.name);
  }

  /** Looks for some node with the name, comparing names only. */
  method LookupName(ghost h: Handle, root: Node?, name: seq<nat>, ghost t: Tree) returns (found: Node?)
    requires h.Holds(t) && root == h.root
    ensures found != null ==> found in Nodes(t) && found.key.name == name
    ensures found == null ==> forall n :: n in Nodes(t) ==> n.key.name != name
  {
    found := root;
    ghost var c, s := Top, t;
    while found != null
      invariant Plug(c, s) == t && At(h.View(), c, s) && found == Root(s)
      invariant NamesBelow(Before(c), name) && NamesAbove(After(c), name)
      decreases s
    {
      NameStep(h.View(), c, s, t, name);
      var res := StrCmp(name, found.key.name);
      if res < 0 {
        c, s := InLeft(c, s.node, s.right), s.left;
        found := found.left;
      } else if res > 0 {
        c, s := InRight(c, s.left, s.node), s.right;
        found := found.right;
      } else {
        return;
      }
    }
    NameEnd(c, t, name);
  }

  lemma NameStep(h: Heap, c: Ctx, s: Tree, t: Tree, name: seq<nat>)
    requires Plug(c, s) == t && At(h, c, s) && s.Branch? && Sorted(InOrder(t))
    requires NamesBelow(Before(c), name) && NamesAbove(After(c), name)
    ensures s.node in h.mem && h.mem[s.node].left == Root(s.left) && h.mem[s.node].right == Root(s.right)
    ensures s.node in Nodes(t)
    ensures var (l, r) := (InLeft(c, s.node, s.right), InRight(c, s.left, s.node));
            && Plug(l, s.left) == t && At(h, l, s.left)
            && Plug(r, s.right) == t && At(h, r, s.right)
    ensures StrCmp(name, s.node.key.name) < 0 ==> NamesAbove(After(InLeft(c, s.node, s.right)), name)
    ensures StrCmp(name, s.node.key.name) > 0 ==> NamesBelow(Before(InRight(c, s.left, s.node)), name)
    ensures StrCmp(name, s.node.key.name) == 0 ==> s.node.key.name == name
  {
    hide InOrder, Sorted, NamesBelow, NamesAbove, StrCmp, At;
    NodesPlug(c, s);
    InOrderPlug(c, s);
    InOrderBranch(s);
    AtChildren(h, c, s);
    AtPlug(h, c, s);
    AtPlug(h, InLeft(c, s.node, s.right), s.left);
    AtPlug(h, InRight(c, s.left, s.node), s.right);
    StrCmpAntisymmetric(name, s.node.key.name);
    NamesSplit(InOrder(t), Before(c), InOrder(s.left), s.node, InOrder(s.right), After(c), name);
  }

  lemma NamesSplit(s: seq<Node>, b: seq<Node>, l: seq<Node>, n: Node, r: seq<Node>, a: seq<Node>, name: seq<nat>)
    requires s == b + (l + [n] + r) + a && Sorted(s) && NamesBelow(b, name) && NamesAbove(a, name)
    ensures StrCmp(name, n.key.name) < 0 ==> NamesAbove([n] + r + a, name)
    ensures StrCmp(name, n.key.name) > 0 ==> NamesBelow(b + (l + [n]), name)
  {
    var k := |b| + |l|;
    assert s[k] == n;
    if StrCmp(name, n.key.name) < 0 {
      forall i | 0 <= i < |r| ensures StrCmp(name, r[i].key.name) < 0 {
        assert s[k + 1 + i] == r[i];
        NamesAscend(s, k, k + 1 + i);
        StrCmpMixed(name, n.key.name, r[i].key.name);
      }
    }
    if StrCmp(name, n.key.name) > 0 {
      forall i | 0 <= i < |l| ensures StrCmp(name, l[i].key.name) > 0 {
        assert s[|b| + i] == l[i];
        NamesAscend(s, |b| + i, k);
        StrCmpMixed(l[i].key.name, n.key.name, name);
      }
    }
  }

  lemma StrCmpMixed(a: seq<nat>, b: seq<nat>, c: seq<nat>)
    ensures StrCmp(a, b) < 0 && StrCmp(b, c) <= 0 ==> StrCmp(a, c) < 0
    ensures StrCmp(a, b) <= 0 && StrCmp(b, c) < 0 ==> StrCmp(a, c) < 0
    ensures StrCmp(a, b) <= 0 && StrCmp(c, b) > 0 ==> StrCmp(c, a) > 0
  {
    StrCmpAntisymmetric(a, b);
    StrCmpAntisymmetric(b, c);
    StrCmpAntisymmetric(a, c);
    if StrCmp(a, b) < 0 && StrCmp(b, c) < 0 { StrCmpTransitive(a, b, c); }
  }

  lemma NameEnd(c: Ctx, t: Tree, name: seq<nat>)
    requires Plug(c, Leaf) == t && NamesBelow(Before(c), name) && NamesAbove(After(c), name)
    ensures forall n :: n in Nodes(t) ==> n.key.name != name
  {
    hide Nodes, Plug, StrCmp, NamesBelow, NamesAbove;
    InOrderPlug(c, Leaf);
    InOrderElems(t);
    assert InOrder(t) == Before(c) + After(c);
    StrCmpAntisymmetric(name, name);
    hide InOrder, Before, After;
    OutsideNames(Before(c), After(c), name);
  }

  lemma OutsideNames(b: seq<Node>, a: seq<Node>, name: seq<nat>)
    requires NamesBelow(b, name) && NamesAbove(a, name) && StrCmp(name, name) == 0
    ensures forall n :: n in Elems(b + a) ==> n.key.name != name
  {
    hide StrCmp;
  }

  // ----- enumerating the forms of one instruction -----

  /** Positions `a` up to `b` are exactly those with the name. */
  ghost predicate NamedRange(s: seq<Node>, name: seq<nat>, a: nat, b: nat) {
    && a <= b <= |s|
    && (forall i :: a <= i < b ==> s[i].key.name == name)
    && forall i :: 0 <= i < |s| && (i < a || b <= i) ==> s[i].key.name != name
  }

  lemma {:induction false} NamedSlice(s: seq<Node>, name: seq<nat>, a: nat, b: nat)
    requires NamedRange(s, name, a, b)
    ensures Named(s, name) == s[a..b]
  {
    if s != [] {
      if a > 0 {
        NamedSlice(s[1..], name, a - 1, b - 1);
      } else if b > 0 {
        NamedSlice(s[1..], name, 0, b - 1);
        assert s[0..b] == [s[0]] + s[1..][0..b - 1];
      } else {
        NamedSlice(s[1..], name, 0, 0);
      }
    }
  }

  lemma NoneNamed(t: Tree, name: seq<nat>)
    requires forall n :: n in Nodes(t) ==> n.key.name != name
    ensures Named(InOrder(t), name) == []
  {
    InOrderElems(t);
    NamedSlice(InOrder(t), name, 0, 0);
  }

  /** If the node before one with the name does not have it, no earlier one does. */
  lemma NothingBefore(s: seq<Node>, name: seq<nat>, at: nat)
    requires Sorted(s) && at < |s| && s[at].key.name == name
    requires at > 0 ==> s[at - 1].key.name != name
    ensures forall i :: 0 <= i < at ==> s[i].key.name != name
  {
    forall i | 0 <= i < at ensures s[i].key.name != name {
      if s[i].key.name == name { NamesContiguous(s, i, at - 1, at); }
    }
  }

  lemma NothingAfter(s: seq<Node>, name: seq<nat>, at: nat)
    requires Sorted(s) && at < |s| && s[at].key.name == name
    requires at + 1 < |s| ==> s[at + 1].key.name != name
    ensures forall i :: at < i < |s| ==> s[i].key.name != name
  {
    forall i | at < i < |s| ensures s[i].key.name != name {
      if s[i].key.name == name { NamesContiguous(s, at, at + 1, i); }
    }
  }

  /** The first form of an instruction: from whichever form is found, backwards to the first. */
  method FirstInstruction(h: Handle, name: seq<nat>, ghost t: Tree) returns (result: Node?, ghost at: nat)
    requires h.Holds(t)
    ensures result == null ==> Named(InOrder(t), name) == []
    ensures result != null ==> at < |InOrder(t)| && InOrder(t)[at] == result && result.key.name == name
    ensures result != null ==> forall i :: 0 <= i < at ==> InOrder(t)[i].key.name != name
  {
    hide InOrder, Balanced, Nodes, At, Sorted, Named;
    at := 0;
    result := LookupName(h, h.root, name, t);
    if result == null {
      NoneNamed(t, name);
      return;
    }
    InOrderElems(t);
    var prev;
    prev, at := NextOrPrev(h, result, -1, t);
    while prev != null && prev.key.name == name
      invariant result != null && at < |InOrder(t)| && InOrder(t)[at] == result && result.key.name == name
      invariant prev == Neighbour(InOrder(t), at, -1)
      decreases at
    {
      assert at > 0 && InOrder(t)[at - 1] == prev;
      result := prev;
      ghost var k;
      prev, k := NextOrPrev(h, result, -1, t);
      SortedDistinct(InOrder(t), k, at - 1);
      at := k;
    }
    NothingBefore(InOrder(t), name, at);
  }

  /** The next form of the same instruction, or null when there are no more. */
  method NextInstruction(h: Handle, inst: Node, ghost t: Tree) returns (found: Node?, ghost at: nat)
    requires h.Holds(t) && inst in Nodes(t)
    ensures at < |InOrder(t)| && InOrder(t)[at] == inst
    ensures found != null ==> at + 1 < |InOrder(t)| && found == InOrder(t)[at + 1] && found.key.name == inst.key.name
    ensures found == null ==> forall i :: at < i < |InOrder(t)| ==> InOrder(t)[i].key.name != inst.key.name
  {
    hide InOrder, Balanced, Nodes, At, Sorted;
    found := null;
    ghost var steps;
    var result;
    result, steps := h.Lookup(inst.key, t);
    SameKeySameNode(t, inst, result);
    var next;
    next, at := NextOrPrev(h, result, 1, t);
    if next != null {
      found := next;
      if found.key.name != inst.key.name {
        found := null;
      }
    }
    if found == null { NothingAfter(InOrder(t), inst.key.name, at); }
  }

  lemma SameKeySameNode(t: Tree, a: Node, b: Node?)
    requires Sorted(InOrder(t)) && a in Nodes(t)
    requires b != null ==> b in Nodes(t) && b.key == a.key
    ensures b != null ==> b == a
  {
    hide Sorted, Nodes, InOrder;
    InOrderElems(t);
    if b != null {
      var s := InOrder(t);
      assert a in s && b in s;
      var i, j :| 0 <= i < |s| && 0 <= j < |s| && s[i] == a && s[j] == b;
      OneKeyOnePlace(s, i, j);
    }
  }

  lemma OneKeyOnePlace(s: seq<Node>, i: int, j: int)
    requires Sorted(s) && 0 <= i < |s| && 0 <= j < |s| && s[i].key == s[j].key
    ensures i == j
  {
    CompareIsTotalOrder(s[i].key, s[j].key, s[i].key);
  }

  /** `fst_inst` and then `nxt_inst` until it fails lists exactly the forms with the name. */
  method AllForms(h: Handle, name: seq<nat>, ghost t: Tree) returns (forms: seq<Node>)
    requires h.Holds(t)
    ensures forms == Named(InOrder(t), name)
  {
    hide InOrder, Balanced, Nodes, At, Sorted, Named;
    forms := [];
    var inst;
    ghost var first, at;
    inst, first := FirstInstruction(h, name, t);
    if inst == null {
      return;
    }
    InOrderElems(t);
    ghost var s := InOrder(t);
    at := first;
    while inst != null
      invariant inst != null ==> at < |s| && s[at] == inst && inst.key.name == name
      invariant FormsSoFar(s, name, first, at, forms) && (inst == null ==> NoneFrom(s, name, at))
      decreases |s| - at, if inst == null then 0 else 1
    {
      forms := forms + [inst];
      ghost var k;
      inst, k := NextInstruction(h, inst, t);
      SortedDistinct(s, k, at);
      at := at + 1;
    }
    NamedSlice(s, name, first, at);
  }

  /** The forms listed so far are those from the first one up to position `at`. */
  ghost predicate FormsSoFar(s: seq<Node>, name: seq<nat>, first: nat, at: nat, forms: seq<Node>) {
    && first <= at <= |s| && forms == s[first..at]
    && (forall i :: 0 <= i < first ==> s[i].key.name != name)
    && (forall i :: first <= i < at ==> s[i].key.name == name)
  }

  ghost predicate NoneFrom(s: seq<Node>, name: seq<nat>, at: nat) {
    forall i :: at <= i < |s| ==> s[i].key.name != name
  }
}
