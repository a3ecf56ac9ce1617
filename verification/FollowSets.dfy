/** Follow sets of configurations, spread along the forward propagation links. */
module FollowSets {
  import opened TokenSets

  /** The successors of each configuration. */
  type Links = seq<seq<nat>>

  type Pairs = set<(nat, nat)>

  predicate LinksOk(links: Links) {
    forall c, k :: 0 <= c < |links| && 0 <= k < |links[c]| ==> links[c][k] < |links|
  }

  predicate Link(links: Links, c: nat, d: nat) { c < |links| && d in links[c] }

  /** A chain of n links. */
  ghost predicate Chain(links: Links, n: nat, from: nat, to: nat) {
    if n == 0 then from == to else exists next: nat :: Link(links, from, next) && Chain(links, n - 1, next, to)
  }

  ghost predicate Reaches(links: Links, from: nat, to: nat) {
    exists n: nat :: Chain(links, n, from, to)
  }

  /** The token is initially in the set of some configuration with a chain of links to
      this one. */
  ghost predicate Arrives(links: Links, start: Pairs, c: nat, e: nat) {
    exists d: nat :: (d, e) in start && Reaches(links, d, c)
  }

  lemma {:induction false} ChainEnd(links: Links, n: nat, from: nat, mid: nat, to: nat)
    requires Chain(links, n, from, mid) && Link(links, mid, to)
    ensures Chain(links, n + 1, from, to)
  {
    if n == 0 {
      assert Chain(links, 0, to, to);
    } else {
      var next: nat :| Link(links, from, next) && Chain(links, n - 1, next, mid);
      ChainEnd(links, n - 1, next, mid, to);
    }
  }

  lemma ArrivesNext(links: Links, start: Pairs, c: nat, d: nat, e: nat)
    requires Arrives(links, start, c, e) && Link(links, c, d)
    ensures Arrives(links, start, d, e)
  {
    var b: nat :| (b, e) in start && Reaches(links, b, c);
    var n: nat :| Chain(links, n, b, c);
    ChainEnd(links, n, b, c, d);
    assert Reaches(links, b, d);
  }

  ghost predicate Sound(links: Links, start: Pairs, view: Pairs) {
    forall c: nat, e: nat :: (c, e) in view ==> Arrives(links, start, c, e)
  }

  /** The sets of a configuration are contained in those of its successors. */
  predicate Contained(links: Links, view: Pairs, c: nat)
    requires c < |links|
  {
    forall k, p :: 0 <= k < |links[c]| && p in view && p.0 == c ==> (links[c][k], p.1) in view
  }

  predicate Closed(links: Links, view: Pairs) {
    forall c :: 0 <= c < |links| ==> Contained(links, view, c)
  }

  lemma {:induction false} ClosedChain(links: Links, view: Pairs, n: nat, from: nat, to: nat, e: nat)
    requires Closed(links, view) && Chain(links, n, from, to) && (from, e) in view
    ensures (to, e) in view
  {
    if n > 0 {
      var next: nat :| Link(links, from, next) && Chain(links, n - 1, next, to);
      assert Contained(links, view, from);
      var k :| 0 <= k < |links[from]| && links[from][k] == next;
      assert (from, e).0 == from && (links[from][k], (from, e).1) in view;
      ClosedChain(links, view, n - 1, next, to, e);
    }
  }

  /** Sets that contain the initial ones, are closed under the links and hold nothing
      that does not arrive are exact, and the least closed sets there are. */
  lemma Exact(links: Links, start: Pairs, view: Pairs, c: nat, e: nat)
    requires start <= view && Closed(links, view) && Sound(links, start, view)
    ensures (c, e) in view <==> Arrives(links, start, c, e)
  {
    if Arrives(links, start, c, e) {
      var d: nat :| (d, e) in start && Reaches(links, d, c);
      var n: nat :| Chain(links, n, d, c);
      ClosedChain(links, view, n, d, c, e);
    }
  }

  lemma Least(links: Links, start: Pairs, view: Pairs, other: Pairs)
    requires Sound(links, start, view) && start <= other && Closed(links, other)
    ensures view <= other
  {
    forall c: nat, e: nat | (c, e) in view ensures (c, e) in other {
      var d: nat :| (d, e) in start && Reaches(links, d, c);
      var n: nat :| Chain(links, n, d, c);
      ClosedChain(links, other, n, d, c, e);
    }
    assert forall p :: p in view ==> p == (p.0, p.1);
  }

  /* ---- The loops ---- */

  /** Every configuration marked complete is contained in its successors. */
  ghost predicate CompleteContained(links: Links, view: Pairs, complete: set<nat>) {
    forall c :: c in complete ==> c < |links| && Contained(links, view, c)
  }

  ghost function Marked(complete: array<bool>): (r: set<nat>)
    reads complete
    ensures forall c: nat :: c in r <==> c < complete.Length && complete[c]
  {
    set c: nat | c < complete.Length && complete[c]
  }

  lemma GivenSound(links: Links, start: Pairs, view: Pairs, c: nat, d: nat)
    requires Sound(links, start, view) && Link(links, c, d)
    ensures Sound(links, start, view + Given(view, d, c))
  {
    forall x: nat, e: nat | (x, e) in view + Given(view, d, c) ensures Arrives(links, start, x, e) {
      if (x, e) !in view { ArrivesNext(links, start, c, d, e); }
    }
  }

  /** A set that grew only at `to` keeps the others contained. */
  lemma OthersContained(links: Links, view: Pairs, now: Pairs, complete: set<nat>, to: nat)
    requires view <= now && CompleteContained(links, view, complete)
    requires forall p :: p in now ==> p in view || p.0 == to
    ensures CompleteContained(links, now, complete - {to})
  {
  }

  /** Spreads one configuration's set to its successors; a successor that changes is
      incomplete again. */
  method Spread(links: Links, rows: array2<bool>, complete: array<bool>, c: nat, ghost start: Pairs)
      returns (progress: bool)
    requires LinksOk(links) && rows.Length0 == complete.Length == |links| && c < |links|
    requires !complete[c]
    requires Sound(links, start, View(rows)) && CompleteContained(links, View(rows), Marked(complete))
    modifies rows, complete
    ensures Sound(links, start, View(rows)) && old(View(rows)) <= View(rows)
    ensures CompleteContained(links, View(rows), Marked(complete))
    ensures progress == (View(rows) != old(View(rows)))
    ensures !progress ==> Marked(complete) == old(Marked(complete)) + {c}
  {
    progress := false;
    var k := 0;
    while k < |links[c]|
      invariant k <= |links[c]| && !complete[c]
      invariant Sound(links, start, View(rows)) && old(View(rows)) <= View(rows)
      invariant CompleteContained(links, View(rows), Marked(complete))
      invariant progress == (View(rows) != old(View(rows)))
      invariant !progress ==> Marked(complete) == old(Marked(complete))
      invariant forall m, p :: 0 <= m < k && p in View(rows) && p.0 == c ==> (links[c][m], p.1) in View(rows)
    {
      ghost var view, marked := View(rows), Marked(complete);
      var d := links[c][k];
      GivenSound(links, start, view, c, d);
      var change := SetUnion(rows, d, c);
      OthersContained(links, view, View(rows), marked, d);
      if change {
        complete[d] := false;
        assert Marked(complete) == marked - {d};
        progress := true;
      }
      k := k + 1;
    }
    ghost var marked := Marked(complete);
    complete[c] := true;
    assert Marked(complete) == marked + {c};
    assert Contained(links, View(rows), c);
  }

  predicate IsOrder(order: seq<nat>, n: nat) {
    (forall k :: 0 <= k < |order| ==> order[k] < n) && (forall c: nat :: c < n ==> c in order)
  }

  /** Spreads all sets along all links until nothing changes: a token ends up in a set
      exactly if it was initially in a set with a chain of links to it. */
  method FindFollowSets(links: Links, rows: array2<bool>, order: seq<nat>)
    requires LinksOk(links) && rows.Length0 == |links| && IsOrder(order, |links|)
    modifies rows
    ensures forall c: nat, e: nat :: c < rows.Length0 && e < rows.Length1 ==>
      (rows[c, e] <==> Arrives(links, old(View(rows)), c, e))
  {
    ghost var start := View(rows);
    SpreadToEnd(links, rows, order);
    hide Sound, Closed, Arrives;
    forall c: nat, e: nat | c < rows.Length0 && e < rows.Length1
      ensures rows[c, e] <==> Arrives(links, start, c, e)
    {
      Exact(links, start, View(rows), c, e);
    }
  }

  method SpreadToEnd(links: Links, rows: array2<bool>, order: seq<nat>)
    requires LinksOk(links) && rows.Length0 == |links| && IsOrder(order, |links|)
    modifies rows
    ensures Sound(links, old(View(rows)), View(rows)) && old(View(rows)) <= View(rows)
    ensures Closed(links, View(rows))
  {
    hide Sound, CompleteContained, Closed, LinksOk;
    ghost var start := View(rows);
    StartSound(links, start);
    var complete := new bool[|links|](_ => false);
    NoneComplete(links, start);
    assert Marked(complete) == {};
    var progress := true;
    while progress
      invariant Sound(links, start, View(rows)) && start <= View(rows)
      invariant CompleteContained(links, View(rows), Marked(complete))
      invariant !progress ==> forall c: nat :: c in order ==> c in Marked(complete)
      decreases |Missing(rows)|, progress
    {
      ghost var before := View(rows);
      progress := SpreadAll(links, rows, complete, order, start);
      MissingShrinks(rows.Length0, rows.Length1, before, View(rows));
    }
    AllComplete(links, View(rows), Marked(complete));
  }

  method SpreadAll(links: Links, rows: array2<bool>, complete: array<bool>, order: seq<nat>, ghost start: Pairs)
      returns (progress: bool)
    requires LinksOk(links) && rows.Length0 == complete.Length == |links|
    requires forall k :: 0 <= k < |order| ==> order[k] < |links|
    requires Sound(links, start, View(rows)) && CompleteContained(links, View(rows), Marked(complete))
    modifies rows, complete
    ensures Sound(links, start, View(rows)) && old(View(rows)) <= View(rows)
    ensures CompleteContained(links, View(rows), Marked(complete))
    ensures progress == (View(rows) != old(View(rows)))
    ensures !progress ==> forall c: nat :: c in order ==> c in Marked(complete)
  {
    hide Sound, CompleteContained;
    progress := false;
    var k := 0;
    while k < |order|
      invariant k <= |order|
      invariant Sound(links, start, View(rows)) && old(View(rows)) <= View(rows)
      invariant CompleteContained(links, View(rows), Marked(complete))
      invariant progress == (View(rows) != old(View(rows)))
      invariant !progress ==> forall j :: 0 <= j < k ==> order[j] in Marked(complete)
    {
      if !complete[order[k]] {
        var more := Spread(links, rows, complete, order[k], start);
        progress := progress || more;
      }
      k := k + 1;
    }
  }

  lemma StartSound(links: Links, start: Pairs)
    ensures Sound(links, start, start)
  {
    forall c: nat, e: nat | (c, e) in start ensures Arrives(links, start, c, e) {
      assert Chain(links, 0, c, c);
      assert Reaches(links, c, c);
    }
  }

  lemma NoneComplete(links: Links, view: Pairs)
    ensures CompleteContained(links, view, {})
  {
  }

  lemma AllComplete(links: Links, view: Pairs, complete: set<nat>)
    requires CompleteContained(links, view, complete) && forall c: nat :: c < |links| ==> c in complete
    ensures Closed(links, view)
  {
  }
}
