/** The optimiser's loop as functions: rule sets in turn, pass after pass, until a whole
    pass has found no match. */
module KeyholePasses {
  import R = KeyholeRules

  /** The queue and the number of the next generated label. */
  type Window = R.Rewritten

  /** The first position from i on where rule set k applies, or the queue's length. */
  function FirstAt(w: Window, k: nat, i: nat): (at: nat)
    requires k < R.SetCount && i <= |w.queue|
    ensures i <= at <= |w.queue|
    ensures forall b: nat :: i <= b < at ==> R.Apply(w.queue, w.counter, k, b).Absent?
    ensures at < |w.queue| ==> R.Apply(w.queue, w.counter, k, at).Present?
    decreases |w.queue| - i
  {
    if i == |w.queue| || R.Apply(w.queue, w.counter, k, i).Present? then i else FirstAt(w, k, i + 1)
  }

  /** Rule set k applied once, where it first matches. */
  function Turn(w: Window, k: nat): Window
    requires k < R.SetCount
  {
    var at := FirstAt(w, k, 0);
    if at < |w.queue| then R.Apply(w.queue, w.counter, k, at).value else w
  }

  /** The rest of a pass, from rule set k on. */
  function Onward(w: Window, k: nat): Window
    decreases R.SetCount - k
  {
    if k >= R.SetCount then w else Onward(Turn(w, k), k + 1)
  }

  function Pass(w: Window): Window { Onward(w, 0) }

  /** A pass takes the rule sets in the order of the table. */
  lemma PassInOrder(w: Window)
    ensures Pass(w)
      == Turn(Turn(Turn(Turn(Turn(Turn(Turn(Turn(Turn(Turn(Turn(w, 0), 1), 2), 3), 4), 5), 6), 7), 8), 9), 10)
  {
    hide Turn;
    var half := Turn(Turn(Turn(Turn(Turn(w, 0), 1), 2), 3), 4);
    assert Onward(w, 0) == Onward(Turn(Turn(w, 0), 1), 2) == Onward(half, 5);
    assert Onward(half, 5) == Onward(Turn(Turn(Turn(half, 5), 6), 7), 8);
  }

  function Passes(w: Window, n: nat): Window
    decreases n
  {
    if n == 0 then w else Passes(Pass(w), n - 1)
  }

  /** No rule set applies anywhere. */
  predicate Settled(w: Window) {
    forall k: nat, at: nat :: k < R.SetCount && at < |w.queue| ==> R.Apply(w.queue, w.counter, k, at).Absent?
  }

  predicate Idle(w: Window, k: nat)
    requires k < R.SetCount
  {
    forall at: nat :: at < |w.queue| ==> R.Apply(w.queue, w.counter, k, at).Absent?
  }

  lemma TurnIdle(w: Window, k: nat)
    requires k < R.SetCount
    ensures Idle(w, k) <==> FirstAt(w, k, 0) == |w.queue|
    ensures Idle(w, k) ==> Turn(w, k) == w
  {
  }

  /** The loop ends. */
  ghost predicate Ends(w: Window) { exists n: nat :: Settled(Passes(w, n)) }

  lemma {:induction false} SettledOnward(w: Window, k: nat)
    requires Settled(w)
    ensures Onward(w, k) == w
    decreases R.SetCount - k
  {
    if k < R.SetCount {
      TurnIdle(w, k);
      hide Settled;
      SettledOnward(w, k + 1);
    }
  }

  lemma {:induction false} SettledStays(w: Window, n: nat)
    requires Settled(w)
    ensures Passes(w, n) == w
    decreases n
  {
    hide Onward;
    if n > 0 {
      SettledOnward(w, 0);
      SettledStays(w, n - 1);
    }
  }

  lemma {:induction false} PassesAdd(w: Window, m: nat, n: nat)
    ensures Passes(w, m + n) == Passes(Passes(w, m), n)
    decreases m
  {
    hide Pass;
    if m > 0 { PassesAdd(Pass(w), m - 1, n); }
  }

  /** What the loop leaves, if it ends. */
  ghost function Rest(w: Window): Window {
    if Ends(w) then var n: nat :| Settled(Passes(w, n)); Passes(w, n) else w
  }

  /** However many passes it takes, the window they settle at is one. */
  lemma RestIs(w: Window, n: nat)
    requires Settled(Passes(w, n))
    ensures Ends(w) && Rest(w) == Passes(w, n)
  {
    hide Settled, Pass;
    var m: nat :| Settled(Passes(w, m)) && Rest(w) == Passes(w, m);
    if m <= n {
      PassesAdd(w, m, n - m);
      SettledStays(Passes(w, m), n - m);
    } else {
      PassesAdd(w, n, m - n);
      SettledStays(Passes(w, n), m - n);
    }
  }

  lemma RestSettled(w: Window)
    requires Ends(w)
    ensures Settled(Rest(w))
  {
    hide Settled, Pass;
    var n: nat :| Settled(Passes(w, n));
    RestIs(w, n);
  }
}
