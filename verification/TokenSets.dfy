/** Sets of tokens as rows of flags: one row for each owner of a set. */
module TokenSets {
  /** The pairs (owner, token) whose flag is set. */
  ghost function View(rows: array2<bool>): (r: set<(nat, nat)>)
    reads rows
    ensures forall o: nat, e: nat :: (o, e) in r <==> o < rows.Length0 && e < rows.Length1 && rows[o, e]
  {
    set o: nat, e: nat | o < rows.Length0 && e < rows.Length1 && rows[o, e] :: (o, e)
  }

  ghost function All(owners: nat, tokens: nat): (r: set<(nat, nat)>)
    ensures forall o: nat, e: nat :: (o, e) in r <==> o < owners && e < tokens
  {
    set o: nat, e: nat | o < owners && e < tokens :: (o, e)
  }

  /** What is not in the sets yet: it shrinks whenever a set grows. */
  ghost function Missing(rows: array2<bool>): set<(nat, nat)>
    reads rows
  {
    All(rows.Length0, rows.Length1) - View(rows)
  }

  lemma MissingShrinks(owners: nat, tokens: nat, x: set<(nat, nat)>, y: set<(nat, nat)>)
    requires x <= y <= All(owners, tokens)
    ensures |All(owners, tokens) - y| <= |All(owners, tokens) - x|
    ensures x != y ==> |All(owners, tokens) - y| < |All(owners, tokens) - x|
  {
    var all := All(owners, tokens);
    assert all - x == (all - y) + (y - x);
    assert y == x + (y - x);
  }

  /** Adds a token; tells whether it is new. */
  method SetAdd(rows: array2<bool>, owner: nat, e: nat) returns (added: bool)
    requires owner < rows.Length0 && e < rows.Length1
    modifies rows
    ensures View(rows) == old(View(rows)) + {(owner, e)}
    ensures added == ((owner, e) !in old(View(rows)))
  {
    added := !rows[owner, e];
    rows[owner, e] := true;
  }

  /** One owner's tokens, given to another owner. */
  ghost function Given(view: set<(nat, nat)>, to: nat, from: nat): (r: set<(nat, nat)>)
    ensures forall o: nat, e: nat :: (o, e) in r <==> o == to && (from, e) in view
  {
    set p | p in view && p.0 == from :: (to, p.1)
  }

  /** Adds every token of one set to another; tells whether that one changes. */
  method SetUnion(rows: array2<bool>, to: nat, from: nat) returns (progress: bool)
    requires to < rows.Length0 && from < rows.Length0
    modifies rows
    ensures View(rows) == old(View(rows)) + Given(old(View(rows)), to, from)
    ensures progress == (View(rows) != old(View(rows)))
  {
    progress := false;
    var i := 0;
    while i < rows.Length1
      invariant i <= rows.Length1
      invariant forall o: nat, e: nat :: o < rows.Length0 && e < rows.Length1 ==>
        rows[o, e] == old(rows[o, e] || (o == to && e < i && rows[from, e]))
      invariant progress == (exists e: nat :: e < i && rows[to, e] != old(rows[to, e]))
    {
      if rows[from, i] && !rows[to, i] {
        rows[to, i] := true;
        progress := true;
      }
      i := i + 1;
    }
    assert View(rows) == old(View(rows)) + Given(old(View(rows)), to, from);
    if progress {
      ghost var e: nat :| e < i && rows[to, e] != old(rows[to, e]);
      assert (to, e) in View(rows) && (to, e) !in old(View(rows));
    }
  }
}
