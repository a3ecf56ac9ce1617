/** The compressed action table of the parser generator: sets of (lookahead, action)
    pairs are overlaid in one array, each at its own offset. */
module ActionTable {
  datatype Entry = Entry(lookahead: int, action: int)

  const Empty := Entry(-1, -1)

  type Slots = seq<Entry>

  /** A set at its offset. */
  datatype Placed = Placed(offset: int, entries: seq<Entry>)

  predicate IsSet(entries: seq<Entry>) {
    && entries != []
    && (forall i :: 0 <= i < |entries| ==> entries[i].lookahead >= 0)
    && (forall i, j :: 0 <= i < j < |entries| ==> entries[i].lookahead != entries[j].lookahead)
  }

  /** Reading the array at the offset finds exactly the set: every pair is where its
      lookahead says, and no other slot claims a lookahead at this offset. */
  predicate Exact(slots: Slots, p: Placed) {
    && (forall i :: 0 <= i < |p.entries| ==>
          var k := p.offset + p.entries[i].lookahead;
          0 <= k < |slots| && slots[k] == p.entries[i])
    && (forall k :: 0 <= k < |slots| && slots[k].lookahead >= 0 && slots[k].lookahead == k - p.offset ==>
          slots[k] in p.entries)
  }

  /** Slots from n on are empty; n may lie behind the array. */
  predicate EmptyFrom(slots: Slots, n: nat) { forall k :: n <= k < |slots| ==> slots[k] == Empty }

  /** The action the parser reads: formula (A), or the default (B). */
  function Lookup(slots: Slots, offset: int, x: int, default: int): int {
    var i := offset + x;
    if 0 <= i < |slots| && slots[i].lookahead == x then slots[i].action else default
  }

  function ActionOf(entries: seq<Entry>, x: int, default: int): int {
    if entries == [] then default
    else if entries[0].lookahead == x then entries[0].action
    else ActionOf(entries[1..], x, default)
  }

  lemma {:induction false} ActionOfMember(entries: seq<Entry>, x: int, default: int, i: nat)
    requires i < |entries| && entries[i].lookahead == x
    requires forall a, b :: 0 <= a < b < |entries| ==> entries[a].lookahead != entries[b].lookahead
    ensures ActionOf(entries, x, default) == entries[i].action
  {
    if i > 0 { ActionOfMember(entries[1..], x, default, i - 1); }
  }

  lemma {:induction false} ActionOfOther(entries: seq<Entry>, x: int, default: int)
    requires forall i :: 0 <= i < |entries| ==> entries[i].lookahead != x
    ensures ActionOf(entries, x, default) == default
  {
    if entries != [] { ActionOfOther(entries[1..], x, default); }
  }

  /** The table answers every lookup as the set itself would. */
  lemma LookupExact(slots: Slots, p: Placed, x: int, default: int)
    requires IsSet(p.entries) && Exact(slots, p) && x >= 0
    ensures Lookup(slots, p.offset, x, default) == ActionOf(p.entries, x, default)
  {
    if i: nat :| i < |p.entries| && p.entries[i].lookahead == x {
      ActionOfMember(p.entries, x, default, i);
    } else {
      ActionOfOther(p.entries, x, default);
    }
  }

  /* ---- Places for a set ---- */

  /** A place where the set already stands: its pairs match, and as many slots claim a
      lookahead at this offset as the set has pairs. */
  predicate Duplicate(slots: Slots, n: nat, o: int, entries: seq<Entry>)
    requires n <= |slots|
  {
    && (forall i :: 0 <= i < |entries| ==>
          var k := o + entries[i].lookahead; 0 <= k < n && slots[k] == entries[i])
    && Claims(slots, n, o) == |entries|
  }

  predicate Claims1(e: Entry, k: int, o: int) { e.lookahead >= 0 && e.lookahead == k - o }

  /** How many slots below n claim a lookahead at the offset. */
  function Claims(slots: Slots, n: nat, o: int): nat
    requires n <= |slots|
  {
    if n == 0 then 0 else Claims(slots, n - 1, o) + (if Claims1(slots[n - 1], n - 1, o) then 1 else 0)
  }

  function ClaimSet(slots: Slots, n: nat, o: int): (r: set<int>)
    requires n <= |slots|
  {
    set k: int | 0 <= k < n && Claims1(slots[k], k, o)
  }

  lemma {:induction false} ClaimsCount(slots: Slots, n: nat, o: int)
    requires n <= |slots|
    ensures |ClaimSet(slots, n, o)| == Claims(slots, n, o)
  {
    if n > 0 {
      ClaimsCount(slots, n - 1, o);
      var claims := if Claims1(slots[n - 1], n - 1, o) then {n - 1} else {};
      assert ClaimSet(slots, n, o) == ClaimSet(slots, n - 1, o) + claims;
    }
  }

  function Targets(o: int, entries: seq<Entry>): set<int> {
    if entries == [] then {}
    else Targets(o, entries[..|entries| - 1]) + {o + entries[|entries| - 1].lookahead}
  }

  lemma {:induction false} TargetsAre(o: int, entries: seq<Entry>, k: int)
    ensures k in Targets(o, entries) <==> exists i :: 0 <= i < |entries| && k == o + entries[i].lookahead
  {
    if entries != [] {
      var front := entries[..|entries| - 1];
      TargetsAre(o, front, k);
      if i :| 0 <= i < |entries| && k == o + entries[i].lookahead {
        assert i < |front| ==> front[i] == entries[i];
      }
    }
  }

  lemma {:induction false} TargetsCount(o: int, entries: seq<Entry>)
    requires forall i, j :: 0 <= i < j < |entries| ==> entries[i].lookahead != entries[j].lookahead
    ensures |Targets(o, entries)| == |entries|
  {
    if entries != [] {
      var front := entries[..|entries| - 1];
      TargetsCount(o, front);
      TargetsAre(o, front, o + entries[|entries| - 1].lookahead);
    }
  }

  lemma SubsetFull(a: set<int>, b: set<int>)
    requires a <= b && |a| == |b|
    ensures a == b
  {
    assert b == a + (b - a);
  }

  /** Claims and targets are the same slots. */
  lemma ClaimsAre(slots: Slots, n: nat, o: int, entries: seq<Entry>)
    requires IsSet(entries) && n <= |slots| && Duplicate(slots, n, o, entries)
    ensures ClaimSet(slots, n, o) == Targets(o, entries)
  {
    hide Claims, ClaimSet, Targets;
    ClaimsCount(slots, n, o);
    TargetsCount(o, entries);
    forall k | k in Targets(o, entries) ensures k in ClaimSet(slots, n, o) {
      TargetsAre(o, entries, k);
      TargetClaims(slots, n, o, entries, k);
    }
    SubsetFull(Targets(o, entries), ClaimSet(slots, n, o));
  }

  lemma TargetClaims(slots: Slots, n: nat, o: int, entries: seq<Entry>, k: int)
    requires IsSet(entries) && n <= |slots|
    requires forall i :: 0 <= i < |entries| ==>
      var t := o + entries[i].lookahead; 0 <= t < n && slots[t] == entries[i]
    requires exists i :: 0 <= i < |entries| && k == o + entries[i].lookahead
    ensures k in ClaimSet(slots, n, o)
  {
  }

  /** A duplicate place is exact: counting the claims is enough. */
  lemma DuplicateExact(slots: Slots, n: nat, o: int, entries: seq<Entry>)
    requires IsSet(entries) && n <= |slots| && EmptyFrom(slots, n) && Duplicate(slots, n, o, entries)
    ensures Exact(slots, Placed(o, entries))
  {
    hide Claims, Targets;
    ClaimsAre(slots, n, o, entries);
    forall k | 0 <= k < |slots| && Claims1(slots[k], k, o)
      ensures slots[k] in entries
    {
      assert k in ClaimSet(slots, n, o);
      TargetsAre(o, entries, k);
    }
  }

  /** The search's test of a place: empty slots for all pairs and no slot that claims a
      lookahead, where an empty slot right before the offset counts as a claim of -1. */
  predicate Fits(slots: Slots, n: nat, o: int, entries: seq<Entry>)
    requires n <= |slots|
  {
    && (forall i :: 0 <= i < |entries| ==>
          var k := o + entries[i].lookahead; 0 <= k < |slots| && slots[k].lookahead < 0)
    && (forall j :: 0 <= j < n ==> slots[j].lookahead != j - o)
  }

  /** A free place: empty slots for all pairs, and no pair of another set claims it. */
  predicate Free(slots: Slots, o: int, entries: seq<Entry>) {
    && (forall i :: 0 <= i < |entries| ==>
          var k := o + entries[i].lookahead; 0 <= k < |slots| && slots[k].lookahead < 0)
    && (forall k :: 0 <= k < |slots| ==> !Claims1(slots[k], k, o))
  }

  lemma FitIsFree(slots: Slots, n: nat, o: int, entries: seq<Entry>)
    requires n <= |slots| && EmptyFrom(slots, n) && Fits(slots, n, o, entries)
    ensures Free(slots, o, entries)
  {
  }

  /** All pairs go below the limit. */
  predicate TargetsBelow(o: int, entries: seq<Entry>, limit: int) {
    forall i :: 0 <= i < |entries| ==> 0 <= o + entries[i].lookahead < limit
  }

  /** The slots after the first m pairs are written. */
  function Written(slots: Slots, o: int, entries: seq<Entry>, m: nat): (r: Slots)
    requires m <= |entries|
    requires TargetsBelow(o, entries, |slots|)
    ensures |r| == |slots|
  {
    if m == 0 then slots
    else Written(slots, o, entries, m - 1)[o + entries[m - 1].lookahead := entries[m - 1]]
  }

  lemma {:induction false} WrittenAt(slots: Slots, o: int, entries: seq<Entry>, m: nat, k: nat)
    requires IsSet(entries) && m <= |entries| && k < |slots|
    requires TargetsBelow(o, entries, |slots|)
    ensures (exists i :: 0 <= i < m && o + entries[i].lookahead == k && Written(slots, o, entries, m)[k] == entries[i])
      || (Written(slots, o, entries, m)[k] == slots[k] && forall i :: 0 <= i < m ==> o + entries[i].lookahead != k)
  {
    if m > 0 { WrittenAt(slots, o, entries, m - 1, k); }
  }

  /** Each pair is found where its lookahead says. */
  lemma WrittenPairs(slots: Slots, o: int, entries: seq<Entry>, i: nat)
    requires IsSet(entries) && TargetsBelow(o, entries, |slots|) && i < |entries|
    ensures Written(slots, o, entries, |entries|)[o + entries[i].lookahead] == entries[i]
  {
    hide Written;
    WrittenAt(slots, o, entries, |entries|, o + entries[i].lookahead);
  }

  /** A slot holds a pair of the set, at its target, or what it held before. */
  lemma WrittenSlot(slots: Slots, o: int, entries: seq<Entry>, k: nat)
    requires IsSet(entries) && TargetsBelow(o, entries, |slots|) && k < |slots|
    ensures var e := Written(slots, o, entries, |entries|)[k];
      (e in entries && o + e.lookahead == k) || e == slots[k]
  {
    hide Written;
    WrittenAt(slots, o, entries, |entries|, k);
  }

  /** Written at a free place, the new set is exact. */
  lemma FitExact(slots: Slots, o: int, entries: seq<Entry>)
    requires IsSet(entries) && Free(slots, o, entries)
    ensures Exact(Written(slots, o, entries, |entries|), Placed(o, entries))
  {
    hide Written, IsSet;
    var after := Written(slots, o, entries, |entries|);
    forall i | 0 <= i < |entries|
      ensures after[o + entries[i].lookahead] == entries[i]
    {
      WrittenPairs(slots, o, entries, i);
    }
    forall k | 0 <= k < |after| && Claims1(after[k], k, o)
      ensures after[k] in entries
    {
      WrittenSlot(slots, o, entries, k);
    }
  }

  /** And no set placed before is disturbed: it has another offset, and none of its
      pairs is overwritten. */
  lemma FitKeeps(slots: Slots, o: int, entries: seq<Entry>, earlier: Placed)
    requires IsSet(entries) && Free(slots, o, entries)
    requires IsSet(earlier.entries) && Exact(slots, earlier)
    ensures Exact(Written(slots, o, entries, |entries|), earlier)
  {
    var after := Written(slots, o, entries, |entries|);
    hide Written;
    var first := earlier.offset + earlier.entries[0].lookahead;
    assert slots[first] == earlier.entries[0] && !Claims1(slots[first], first, o);
    assert earlier.offset != o;
    forall i | 0 <= i < |earlier.entries|
      ensures after[earlier.offset + earlier.entries[i].lookahead] == earlier.entries[i]
    {
      WrittenAt(slots, o, entries, |entries|, earlier.offset + earlier.entries[i].lookahead);
    }
    forall k | 0 <= k < |after| && Claims1(after[k], k, earlier.offset)
      ensures after[k] in earlier.entries
    {
      WrittenAt(slots, o, entries, |entries|, k);
    }
  }

  /** Past the end of the used slots and the smallest lookahead every place fits. */
  lemma EndFits(slots: Slots, n: nat, o: int, entries: seq<Entry>, mn: int, mx: int)
    requires n <= |slots| && EmptyFrom(slots, n) && 0 <= mn
    requires forall i :: 0 <= i < |entries| ==> mn <= entries[i].lookahead <= mx
    requires forall j :: 0 <= j < n ==> slots[j].lookahead >= -1
    requires o == n + 1 && o + mx < |slots|
    ensures Fits(slots, n, o, entries)
  {
  }

  /* ---- Reading back ---- */

  /** Every occupied slot holds a pair of some set, where that set's offset puts it. */
  ghost predicate Owned(slots: Slots, placed: seq<Placed>) {
    forall k :: 0 <= k < |slots| && slots[k].lookahead >= 0 ==>
      exists p :: 0 <= p < |placed| && placed[p].offset == k - slots[k].lookahead && slots[k] in placed[p].entries
  }

  /** The used slots are the first n, and belong to the sets inserted so far. */
  ghost predicate Sound(slots: Slots, n: nat, placed: seq<Placed>) {
    && EmptyFrom(slots, n)
    && (forall j :: 0 <= j < |slots| ==> slots[j].lookahead >= -1)
    && (forall p :: 0 <= p < |placed| ==> IsSet(placed[p].entries))
    && Owned(slots, placed)
  }

  /** Every set reads back exactly. */
  predicate AllExact(slots: Slots, placed: seq<Placed>) {
    forall p :: 0 <= p < |placed| ==> Exact(slots, placed[p])
  }

  predicate Usable(slots: Slots, n: nat, o: int, entries: seq<Entry>)
    requires n <= |slots|
  {
    Duplicate(slots, n, o, entries) || Free(slots, o, entries)
  }

  /** Two sets that read back at one offset are one set. */
  lemma SameOffset(slots: Slots, o: int, a: seq<Entry>, b: seq<Entry>)
    requires IsSet(a) && Exact(slots, Placed(o, a)) && Exact(slots, Placed(o, b))
    ensures forall e :: e in a ==> e in b
  {
    forall e | e in a ensures e in b {
      var i :| 0 <= i < |a| && a[i] == e;
      assert slots[o + e.lookahead] == e;
    }
  }

  /** A place that another set claims already, and where both read back afterwards, was
      a duplicate. */
  lemma ClaimedDuplicate(slots: Slots, n: nat, o: int, entries: seq<Entry>, other: seq<Entry>)
    requires IsSet(entries) && IsSet(other) && n <= |slots| && EmptyFrom(slots, n)
    requires Exact(slots, Placed(o, other))
    requires forall e :: e in entries <==> e in other
    ensures Duplicate(slots, n, o, entries)
  {
    hide Claims, Targets, ClaimSet;
    forall i | 0 <= i < |entries|
      ensures var k := o + entries[i].lookahead; 0 <= k < n && slots[k] == entries[i]
    {
      assert entries[i] in other;
    }
    forall k ensures k in ClaimSet(slots, n, o) <==> k in Targets(o, entries) {
      TargetsAre(o, entries, k);
      if k in Targets(o, entries) { TargetClaims(slots, n, o, entries, k); }
      if k in ClaimSet(slots, n, o) { ClaimTargets(slots, n, o, entries, other, k); }
    }
    assert ClaimSet(slots, n, o) == Targets(o, entries);
    ClaimsCount(slots, n, o);
    TargetsCount(o, entries);
  }

  lemma ClaimTargets(slots: Slots, n: nat, o: int, entries: seq<Entry>, other: seq<Entry>, k: int)
    requires n <= |slots| && Exact(slots, Placed(o, other)) && k in ClaimSet(slots, n, o)
    requires forall e :: e in entries <==> e in other
    ensures exists i :: 0 <= i < |entries| && k == o + entries[i].lookahead
  {
    assert slots[k] in entries;
    var i :| 0 <= i < |entries| && entries[i] == slots[k];
  }

  /** The set an occupied slot belongs to. */
  lemma OwnerOf(slots: Slots, placed: seq<Placed>, k: nat) returns (p: nat)
    requires Owned(slots, placed) && k < |slots| && slots[k].lookahead >= 0
    ensures p < |placed| && placed[p].offset == k - slots[k].lookahead && slots[k] in placed[p].entries
  {
    p :| 0 <= p < |placed| && placed[p].offset == k - slots[k].lookahead && slots[k] in placed[p].entries;
  }

  /** A set whose pair stood where a new pair was written and that still reads back has
      the same offset. */
  lemma SameSlot(slots: Slots, after: Slots, o: int, entries: seq<Entry>, i: nat, other: Placed)
    requires i < |entries| && 0 <= o + entries[i].lookahead < |slots| == |after|
    requires Exact(after, other) && after[o + entries[i].lookahead] == entries[i]
    requires var e := slots[o + entries[i].lookahead];
      e in other.entries && other.offset == o + entries[i].lookahead - e.lookahead
    ensures other.offset == o
  {
    var k := o + entries[i].lookahead;
    var e :| 0 <= e < |other.entries| && other.entries[e] == slots[k];
    assert after[k] == other.entries[e];
  }

  /** If a place is not free, some earlier set has its offset, or loses a pair. */
  lemma NotFree(slots: Slots, n: nat, o: int, entries: seq<Entry>, placed: seq<Placed>) returns (p: nat)
    requires IsSet(entries) && Sound(slots, n, placed) && TargetsBelow(o, entries, |slots|)
    requires !Free(slots, o, entries) && AllExact(Written(slots, o, entries, |entries|), placed)
    ensures p < |placed| && placed[p].offset == o
  {
    hide Written, Exact, Owned, EmptyFrom, IsSet;
    if k :| 0 <= k < |slots| && Claims1(slots[k], k, o) {
      p := OwnerOf(slots, placed, k);
    } else {
      var i :| 0 <= i < |entries| && slots[o + entries[i].lookahead].lookahead >= 0;
      p := OwnerOf(slots, placed, o + entries[i].lookahead);
      WrittenPairs(slots, o, entries, i);
      SameSlot(slots, Written(slots, o, entries, |entries|), o, entries, i, placed[p]);
    }
  }

  /** When all sets read back after the new one is written, the place was usable. */
  lemma ReadUsable(slots: Slots, n: nat, o: int, entries: seq<Entry>, placed: seq<Placed>)
    requires IsSet(entries) && Sound(slots, n, placed) && n <= |slots| && TargetsBelow(o, entries, |slots|)
    requires AllExact(slots, placed) && AllExact(Written(slots, o, entries, |entries|), placed)
    requires Exact(Written(slots, o, entries, |entries|), Placed(o, entries))
    ensures Usable(slots, n, o, entries)
  {
    hide Written, Free, Duplicate;
    if !Free(slots, o, entries) {
      var p := NotFree(slots, n, o, entries, placed);
      var other := placed[p].entries;
      assert placed[p] == Placed(o, other);
      SameOffset(Written(slots, o, entries, |entries|), o, entries, other);
      SameOffset(Written(slots, o, entries, |entries|), o, other, entries);
      ClaimedDuplicate(slots, n, o, entries, other);
    }
  }

  /** Written at a usable place, all sets read back. */
  lemma UsableRead(slots: Slots, n: nat, o: int, entries: seq<Entry>, placed: seq<Placed>)
    requires IsSet(entries) && Sound(slots, n, placed) && n <= |slots| && TargetsBelow(o, entries, |slots|)
    requires AllExact(slots, placed) && Usable(slots, n, o, entries)
    ensures AllExact(Written(slots, o, entries, |entries|), placed + [Placed(o, entries)])
  {
    hide Exact, Free, Written, Owned, Duplicate;
    if Duplicate(slots, n, o, entries) {
      Rewritten(slots, n, o, entries, |entries|);
      DuplicateExact(slots, n, o, entries);
    } else {
      FitExact(slots, o, entries);
      forall p | 0 <= p < |placed| ensures Exact(Written(slots, o, entries, |entries|), placed[p]) {
        FitKeeps(slots, o, entries, placed[p]);
      }
    }
  }

  /** Wherever a set is written inside the array: all sets, the new one included, read
      back if and only if the place was a duplicate or free. */
  lemma ReadExact(slots: Slots, n: nat, o: int, entries: seq<Entry>, placed: seq<Placed>)
    requires IsSet(entries) && Sound(slots, n, placed) && n <= |slots| && TargetsBelow(o, entries, |slots|)
    requires AllExact(slots, placed)
    ensures AllExact(Written(slots, o, entries, |entries|), placed + [Placed(o, entries)])
      <==> Usable(slots, n, o, entries)
  {
    hide Exact, Written, Usable, Owned, Sound;
    var all := placed + [Placed(o, entries)];
    if Usable(slots, n, o, entries) { UsableRead(slots, n, o, entries, placed); }
    if AllExact(Written(slots, o, entries, |entries|), all) {
      assert all[|placed|] == Placed(o, entries);
      assert forall p :: 0 <= p < |placed| ==> all[p] == placed[p];
      ReadUsable(slots, n, o, entries, placed);
    }
  }

  /** Writing a set over itself changes nothing. */
  lemma {:induction false} Rewritten(slots: Slots, n: nat, o: int, entries: seq<Entry>, m: nat)
    requires n <= |slots| && Duplicate(slots, n, o, entries) && m <= |entries|
    requires TargetsBelow(o, entries, |slots|)
    ensures Written(slots, o, entries, m) == slots
  {
    if m > 0 { Rewritten(slots, n, o, entries, m - 1); }
  }

  /** Whatever place it is, the table stays sound. */
  lemma SoundWritten(slots: Slots, n: nat, o: int, entries: seq<Entry>, n': nat, placed: seq<Placed>)
    requires IsSet(entries) && Sound(slots, n, placed) && n <= n'
    requires TargetsBelow(o, entries, |slots|) && TargetsBelow(o, entries, n')
    ensures Sound(Written(slots, o, entries, |entries|), n', placed + [Placed(o, entries)])
  {
    var after, all := Written(slots, o, entries, |entries|), placed + [Placed(o, entries)];
    hide Written, Owned;
    forall k | 0 <= k < |slots| ensures (k >= n' ==> after[k] == Empty) && after[k].lookahead >= -1 {
      WrittenSlot(slots, o, entries, k);
    }
    OwnedWritten(slots, o, entries, placed);
  }

  lemma OwnedWritten(slots: Slots, o: int, entries: seq<Entry>, placed: seq<Placed>)
    requires IsSet(entries) && Owned(slots, placed) && TargetsBelow(o, entries, |slots|)
    ensures Owned(Written(slots, o, entries, |entries|), placed + [Placed(o, entries)])
  {
    var after, all := Written(slots, o, entries, |entries|), placed + [Placed(o, entries)];
    hide Written, IsSet, TargetsBelow;
    forall k | 0 <= k < |after| && after[k].lookahead >= 0
      ensures exists p :: 0 <= p < |all| && all[p].offset == k - after[k].lookahead && after[k] in all[p].entries
    {
      WrittenSlot(slots, o, entries, k);
      WrittenOwned(slots, o, entries, placed, k, after[k]);
    }
  }

  lemma WrittenOwned(slots: Slots, o: int, entries: seq<Entry>, placed: seq<Placed>, k: nat, e: Entry)
    requires k < |slots| && Owned(slots, placed) && e.lookahead >= 0
    requires (e in entries && o + e.lookahead == k) || e == slots[k]
    ensures var all := placed + [Placed(o, entries)];
      exists p :: 0 <= p < |all| && all[p].offset == k - e.lookahead && e in all[p].entries
  {
    var all := placed + [Placed(o, entries)];
    if e in entries && o + e.lookahead == k {
      assert all[|placed|] == Placed(o, entries);
    } else {
      var p :| 0 <= p < |placed| && placed[p].offset == k - e.lookahead && e in placed[p].entries;
      assert all[p] == placed[p];
    }
  }

  /* ---- Where the search stops ---- */

  /** The pending set with its least and greatest lookahead. */
  predicate Bounds(entries: seq<Entry>, mn: int, mnAction: int, mx: int) {
    && (forall i :: 0 <= i < |entries| ==> mn <= entries[i].lookahead <= mx)
    && Entry(mn, mnAction) in entries
    && exists e :: e in entries && e.lookahead == mx
  }

  predicate Pending(entries: seq<Entry>, mn: int, mnAction: int, mx: int) {
    entries != [] ==> IsSet(entries) && Bounds(entries, mn, mnAction, mx)
  }

  /** The set fits with its least lookahead at index i. */
  predicate FitsAt(slots: Slots, n: nat, entries: seq<Entry>, mn: int, i: int)
    requires n <= |slots|
  {
    Fits(slots, n, i - mn, entries)
  }

  /** The set stands already with its least lookahead at index i. */
  predicate DuplicateAt(slots: Slots, n: nat, entries: seq<Entry>, mn: int, i: int)
    requires n <= |slots|
  {
    Duplicate(slots, n, i - mn, entries)
  }

  /** The highest index up to i, not below `end`, where the set stands already; else
      the index before `end`. */
  function DuplicateFrom(slots: Slots, n: nat, entries: seq<Entry>, mn: int, end: nat, i: int): (d: int)
    requires n <= |slots| && i >= end - 1
    ensures end - 1 <= d <= i
    ensures d >= end ==> DuplicateAt(slots, n, entries, mn, d)
    ensures forall k :: d < k <= i ==> !DuplicateAt(slots, n, entries, mn, k)
    decreases i - end
  {
    if i < end || DuplicateAt(slots, n, entries, mn, i) then i
    else DuplicateFrom(slots, n, entries, mn, end, i - 1)
  }

  /** The lowest index from i on where the set fits; else where the search gives up. */
  function HoleFrom(slots: Slots, n: nat, entries: seq<Entry>, mn: int, mx: int, i: nat): (h: nat)
    requires n <= |slots|
    ensures i <= h && (h > i ==> h <= |slots| - mx)
    ensures h < |slots| - mx ==> FitsAt(slots, n, entries, mn, h)
    ensures forall k :: i <= k < h ==> !FitsAt(slots, n, entries, mn, k)
    decreases |slots| - mx - i
  {
    if i >= |slots| - mx || FitsAt(slots, n, entries, mn, i) then i
    else HoleFrom(slots, n, entries, mn, mx, i + 1)
  }

  /** Whether some identical set stands at `end` or behind. */
  predicate HasDuplicate(slots: Slots, n: nat, entries: seq<Entry>, mn: int, end: nat)
    requires n <= |slots|
  {
    end < n && DuplicateFrom(slots, n, entries, mn, end, n - 1) >= end
  }

  /** The index of the least lookahead where the search stops. */
  function Stop(slots: Slots, n: nat, entries: seq<Entry>, mn: int, mx: int, end: nat): (i: nat)
    requires n <= |slots|
    ensures end <= i
  {
    if HasDuplicate(slots, n, entries, mn, end) then DuplicateFrom(slots, n, entries, mn, end, n - 1)
    else HoleFrom(slots, n, entries, mn, mx, end)
  }

  /** No identical set and no fitting place: the search gives up. */
  predicate GivesUp(slots: Slots, n: nat, entries: seq<Entry>, mn: int, mx: int, end: nat)
    requires n <= |slots|
  {
    !HasDuplicate(slots, n, entries, mn, end) && HoleFrom(slots, n, entries, mn, mx, end) >= |slots| - mx
  }

  /** Somewhere from `end` on, in the used part, the set stands already. */
  predicate StandsFrom(slots: Slots, n: nat, entries: seq<Entry>, mn: int, end: nat)
    requires n <= |slots|
  {
    exists d :: end <= d < n && DuplicateAt(slots, n, entries, mn, d)
  }

  /** Where the set stands already, the search stops at the highest such place; else at
      the lowest one that fits, or behind all of them if none does. */
  predicate StopsAt(slots: Slots, n: nat, entries: seq<Entry>, mn: int, mx: int, end: nat, i: nat)
    requires n <= |slots|
  {
    if StandsFrom(slots, n, entries, mn, end) then
      && end <= i < n && DuplicateAt(slots, n, entries, mn, i)
      && forall k :: i < k < n ==> !DuplicateAt(slots, n, entries, mn, k)
    else
      && end <= i && (forall k :: end <= k < i ==> !FitsAt(slots, n, entries, mn, k))
      && (if i < |slots| - mx then FitsAt(slots, n, entries, mn, i) else i == end || i == |slots| - mx)
  }

  /** The search stops there, and nowhere else. */
  lemma StopExact(slots: Slots, n: nat, entries: seq<Entry>, mn: int, mx: int, end: nat, i: nat)
    requires n <= |slots|
    ensures StopsAt(slots, n, entries, mn, mx, end, i) <==> i == Stop(slots, n, entries, mn, mx, end)
    ensures HasDuplicate(slots, n, entries, mn, end) <==> StandsFrom(slots, n, entries, mn, end)
  {
    hide DuplicateAt, FitsAt;
    if end < n { var d := DuplicateFrom(slots, n, entries, mn, end, n - 1); }
    var h := HoleFrom(slots, n, entries, mn, mx, end);
  }

  /** A search that does not give up stops at a usable place. */
  lemma StopUsable(slots: Slots, n: nat, entries: seq<Entry>, mn: int, mx: int, end: nat)
    requires n <= |slots| && EmptyFrom(slots, n) && !GivesUp(slots, n, entries, mn, mx, end)
    ensures var o := Stop(slots, n, entries, mn, mx, end) - mn;
      Usable(slots, n, o, entries) && TargetsBelow(o, entries, |slots|)
  {
    hide Duplicate, Fits;
    var i := Stop(slots, n, entries, mn, mx, end);
    if HasDuplicate(slots, n, entries, mn, end) {
      DuplicateBelow(slots, n, i - mn, entries);
    } else {
      FitIsFree(slots, n, i - mn, entries);
      FreeBelow(slots, i - mn, entries);
    }
  }

  lemma DuplicateBelow(slots: Slots, n: nat, o: int, entries: seq<Entry>)
    requires n <= |slots| && Duplicate(slots, n, o, entries)
    ensures TargetsBelow(o, entries, |slots|)
  {
  }

  lemma FreeBelow(slots: Slots, o: int, entries: seq<Entry>)
    requires Free(slots, o, entries)
    ensures TargetsBelow(o, entries, |slots|)
  {
  }

  /** Where the search gives up, the write leaves the array exactly if the set holds the
      lookahead zero. */
  lemma PastEndExact(slots: Slots, n: nat, entries: seq<Entry>, mn: int, mnAction: int, mx: int, end: nat)
    requires n <= |slots| && EmptyFrom(slots, n) && entries != [] && Pending(entries, mn, mnAction, mx)
    requires mx < |slots| && (end == 0 || end == mn)
    ensures !TargetsBelow(Stop(slots, n, entries, mn, mx, end) - mn, entries, |slots|)
      <==> GivesUp(slots, n, entries, mn, mx, end) && mn == 0
  {
    hide Duplicate, Fits;
    var i := Stop(slots, n, entries, mn, mx, end);
    if !GivesUp(slots, n, entries, mn, mx, end) {
      StopUsable(slots, n, entries, mn, mx, end);
    } else {
      assert Entry(mn, mnAction) in entries;
      var e :| 0 <= e < |entries| && entries[e].lookahead == mx;
      assert i == end || i == |slots| - mx;
      assert i - mn + entries[e].lookahead == i - mn + mx;
    }
  }

  /** With enough room the search does not give up. */
  lemma RoomStops(slots: Slots, n: nat, entries: seq<Entry>, mn: int, mnAction: int, mx: int, end: nat)
    requires n <= |slots| && EmptyFrom(slots, n) && entries != [] && Pending(entries, mn, mnAction, mx)
    requires forall j :: 0 <= j < |slots| ==> slots[j].lookahead >= -1
    requires n + mn + mx + 2 <= |slots| && (end == 0 || end == mn)
    ensures !GivesUp(slots, n, entries, mn, mx, end)
  {
    hide Duplicate, Fits;
    assert Entry(mn, mnAction) in entries;
    EndFits(slots, n, n + 1, entries, mn, mx);
    assert FitsAt(slots, n, entries, mn, n + mn + 1);
  }

  /** With room for all terminals as well, a safe set leaves the used size inside the array. */
  lemma RoomSafe(slots: Slots, n: nat, entries: seq<Entry>, mn: int, mnAction: int, mx: int, end: nat, nterminal: nat)
    requires n <= |slots| && EmptyFrom(slots, n) && entries != [] && Pending(entries, mn, mnAction, mx)
    requires forall j :: 0 <= j < |slots| ==> slots[j].lookahead >= -1
    requires n + mn + mx + 2 <= |slots| && (end == 0 || end == mn)
    requires n + mn + nterminal + 1 < |slots|
    ensures Stop(slots, n, entries, mn, mx, end) + nterminal < |slots|
  {
    hide Duplicate, Fits;
    assert Entry(mn, mnAction) in entries;
    EndFits(slots, n, n + 1, entries, mn, mx);
    assert FitsAt(slots, n, entries, mn, n + mn + 1);
  }

  /** The same pairs, in any order. */
  ghost predicate SameSet(a: seq<Entry>, b: seq<Entry>) { forall e :: e in a <==> e in b }

  /** A set that reads back stands where it was put, for any order of its pairs. */
  lemma PlacedStands(slots: Slots, n: nat, entries: seq<Entry>, mn: int, mnAction: int, mx: int, end: nat, p: Placed)
    requires n <= |slots| && EmptyFrom(slots, n) && entries != [] && Pending(entries, mn, mnAction, mx)
    requires IsSet(p.entries) && Exact(slots, p) && SameSet(p.entries, entries) && p.offset + mn >= end
    ensures StandsFrom(slots, n, entries, mn, end)
  {
    hide Duplicate, Exact;
    ClaimedDuplicateOf(slots, n, entries, p);
    LeastBelow(slots, n, entries, mn, mnAction, mx, p.offset);
    assert DuplicateAt(slots, n, entries, mn, p.offset + mn);
  }

  lemma LeastBelow(slots: Slots, n: nat, entries: seq<Entry>, mn: int, mnAction: int, mx: int, o: int)
    requires n <= |slots| && entries != [] && Pending(entries, mn, mnAction, mx) && Duplicate(slots, n, o, entries)
    ensures 0 <= o + mn < n
  {
    hide Claims;
    var m :| 0 <= m < |entries| && entries[m] == Entry(mn, mnAction);
  }

  /** The set has been inserted before, at an offset that will do. */
  ghost predicate Again(placed: seq<Placed>, entries: seq<Entry>, safe: bool) {
    exists p :: 0 <= p < |placed| && SameSet(placed[p].entries, entries) && (safe ==> placed[p].offset >= 0)
  }

  lemma AgainStands(slots: Slots, n: nat, entries: seq<Entry>, mn: int, mnAction: int, mx: int, placed: seq<Placed>,
                    safe: bool)
    requires n <= |slots| && Sound(slots, n, placed) && AllExact(slots, placed) && Again(placed, entries, safe)
    requires entries != [] && Pending(entries, mn, mnAction, mx) && mn >= 0
    ensures StandsFrom(slots, n, entries, mn, if safe then mn else 0)
  {
    hide SameSet, Exact, Pending, StandsFrom, Duplicate;
    PendingSet(entries, mn, mnAction, mx);
    var p :| 0 <= p < |placed| && SameSet(placed[p].entries, entries) && (safe ==> placed[p].offset >= 0);
    if !safe {
      ClaimedDuplicateOf(slots, n, entries, placed[p]);
      LeastBelow(slots, n, entries, mn, mnAction, mx, placed[p].offset);
    }
    PlacedStands(slots, n, entries, mn, mnAction, mx, if safe then mn else 0, placed[p]);
  }

  lemma ClaimedDuplicateOf(slots: Slots, n: nat, entries: seq<Entry>, p: Placed)
    requires n <= |slots| && EmptyFrom(slots, n) && IsSet(entries) && IsSet(p.entries)
    requires Exact(slots, p) && SameSet(p.entries, entries)
    ensures Duplicate(slots, n, p.offset, entries)
  {
    assert Placed(p.offset, p.entries) == p;
    ClaimedDuplicate(slots, n, p.offset, entries, p.entries);
  }

  /* ---- The table under construction ---- */

  /** The array with room for one more set. */
  function Room(slots: Slots, n: nat, nsymbol: nat): (r: Slots)
    ensures n + nsymbol + 1 < |r| && |slots| <= |r| && r[..|slots|] == slots && EmptyFrom(r[|slots|..], 0)
    ensures n + nsymbol + 1 < |slots| ==> r == slots
  {
    if n + nsymbol + 1 >= |slots| then slots + seq(n + nsymbol + 1 + 20, i => Empty) else slots
  }

  /** The used size when m pairs are written at the offset. */
  function Size(n: nat, o: int, entries: seq<Entry>, m: nat): (r: int)
    requires m <= |entries|
    ensures r >= n && forall i :: 0 <= i < m ==> o + entries[i].lookahead < r
  {
    if m == 0 then n
    else
      var before := Size(n, o, entries, m - 1);
      if o + entries[m - 1].lookahead >= before then o + entries[m - 1].lookahead + 1 else before
  }

  /** A safe set also claims the slots for all terminals. */
  function SafeSize(size: int, i: int, nterminal: nat, safe: bool): (r: int)
    ensures r >= size && (safe ==> i + nterminal < r)
  {
    if safe && i + nterminal >= size then i + nterminal + 1 else size
  }

  /** The used size covers all pairs and, for a safe set, all terminals. */
  predicate Covers(size: int, n: nat, i: int, mn: int, entries: seq<Entry>, nterminal: nat, safe: bool) {
    && n <= size && (forall k :: 0 <= k < |entries| ==> i - mn + entries[k].lookahead < size)
    && (safe ==> i + nterminal < size)
  }

  /** It is the least that does. */
  lemma {:induction false} SizeLeast(n: nat, i: int, mn: int, entries: seq<Entry>, nterminal: nat, safe: bool)
    ensures var size := SafeSize(Size(n, i - mn, entries, |entries|), i, nterminal, safe);
      Covers(size, n, i, mn, entries, nterminal, safe) && !Covers(size - 1, n, i, mn, entries, nterminal, safe)
  {
    SizeReached(n, i - mn, entries, |entries|);
    hide Size;
  }

  lemma {:induction false} SizeReached(n: nat, o: int, entries: seq<Entry>, m: nat)
    requires m <= |entries|
    ensures var r := Size(n, o, entries, m); r == n || exists k :: 0 <= k < m && o + entries[k].lookahead == r - 1
  {
    if m > 0 { SizeReached(n, o, entries, m - 1); }
  }

  /** At a place where the set stands already nothing is written anew, and only a safe set
      can make the used part longer. */
  lemma StoredAgain(slots: Slots, n: nat, i: int, mn: int, entries: seq<Entry>, nterminal: nat, safe: bool)
    requires n <= |slots| && Duplicate(slots, n, i - mn, entries)
    ensures TargetsBelow(i - mn, entries, |slots|) && Written(slots, i - mn, entries, |entries|) == slots
    ensures var size := SafeSize(Size(n, i - mn, entries, |entries|), i, nterminal, safe);
      size == if safe && i + nterminal >= n then i + nterminal + 1 else n
  {
    DuplicateBelow(slots, n, i - mn, entries);
    Rewritten(slots, n, i - mn, entries, |entries|);
    SizeInside(n, i - mn, entries, |entries|, n);
  }

  /** The pairs alone never push the used size past the end of the array. */
  lemma {:induction false} SizeInside(n: nat, o: int, entries: seq<Entry>, m: nat, limit: nat)
    requires n <= limit && m <= |entries| && TargetsBelow(o, entries, limit)
    ensures Size(n, o, entries, m) <= limit
  {
    if m > 0 { SizeInside(n, o, entries, m - 1, limit); }
  }

  /** `PastEnd`: the set would be written past the end of the array. */
  datatype Outcome = Stored(offset: int) | PastEnd

  /** A set that stands from `end` on is used again: the array stays as it is, and so
      does the used size, unless the set is safe and too near its end. */
  ghost predicate Reused(slots: Slots, n: nat, entries: seq<Entry>, i: int, mn: int, nterminal: nat, safe: bool,
                         after: Slots, n': int)
    requires n <= |slots|
  {
    && Duplicate(slots, n, i - mn, entries) && after == slots
    && n' == if safe && i + nterminal >= n then i + nterminal + 1 else n
  }

  /** The search stopped at i, and the used size is the least that is enough. */
  predicate StoredAt(slots: Slots, n: nat, entries: seq<Entry>, i: int, mn: int, mx: int, nterminal: nat, safe: bool,
                     n': int)
    requires n <= |slots| && (safe ==> mn >= 0)
  {
    && i >= 0 && StopsAt(slots, n, entries, mn, mx, if safe then mn else 0, i)
    && Covers(n', n, i, mn, entries, nterminal, safe) && !Covers(n' - 1, n, i, mn, entries, nterminal, safe)
  }

  lemma StoredWell(slots: Slots, n: nat, entries: seq<Entry>, mn: int, mx: int, nterminal: nat, safe: bool)
    requires n <= |slots| && (safe ==> mn >= 0)
    ensures var i := Stop(slots, n, entries, mn, mx, if safe then mn else 0);
      var n' := SafeSize(Size(n, i - mn, entries, |entries|), i, nterminal, safe);
      && StoredAt(slots, n, entries, i, mn, mx, nterminal, safe, n')
      && (StandsFrom(slots, n, entries, mn, if safe then mn else 0) ==>
            && TargetsBelow(i - mn, entries, |slots|)
            && Reused(slots, n, entries, i, mn, nterminal, safe, Written(slots, i - mn, entries, |entries|), n'))
  {
    var end := if safe then mn else 0;
    var i := Stop(slots, n, entries, mn, mx, end);
    StopExact(slots, n, entries, mn, mx, end, i);
    SizeLeast(n, i, mn, entries, nterminal, safe);
    if StandsFrom(slots, n, entries, mn, end) { StoredAgain(slots, n, i, mn, entries, nterminal, safe); }
    hide Stop, StopsAt, StandsFrom, Written, Size, Duplicate;
  }

  class ActTab {
    var aAction: Slots
    var nAction: nat
    var aLookahead: seq<Entry>
    var mnLookahead: int
    var mnAction: int
    var mxLookahead: int
    const nterminal: nat
    const nsymbol: nat
    ghost var placed: seq<Placed> // every set inserted so far, with its offset

    ghost predicate Valid()
      reads this
    {
      && Sound(aAction, nAction, placed)
      && Pending(aLookahead, mnLookahead, mnAction, mxLookahead)
    }

    /** Every set inserted so far reads back exactly. */
    ghost predicate AllRead()
      reads this
    {
      AllExact(aAction, placed)
    }

    constructor (nsymbol: nat, nterminal: nat)
      ensures Valid() && AllRead() && placed == [] && aLookahead == [] && aAction == [] && nAction == 0
      ensures this.nsymbol == nsymbol && this.nterminal == nterminal
    {
      this.nsymbol, this.nterminal := nsymbol, nterminal;
      aAction, nAction, aLookahead, placed := [], 0, [], [];
      mnLookahead, mnAction, mxLookahead := 0, 0, 0;
    }

    /** Adds a pair to the pending set; a set has one action for each lookahead. */
    method Action(lookahead: int, action: int)
      requires Valid() && lookahead >= 0
      requires forall i :: 0 <= i < |aLookahead| ==> aLookahead[i].lookahead != lookahead
      modifies this`aLookahead, this`mnLookahead, this`mnAction, this`mxLookahead
      ensures Valid() && aLookahead == old(aLookahead) + [Entry(lookahead, action)]
    {
      hide Sound;
      ghost var before, mn, mnA, mx := aLookahead, mnLookahead, mnAction, mxLookahead;
      if aLookahead == [] {
        mxLookahead, mnLookahead, mnAction := lookahead, lookahead, action;
      } else {
        if mxLookahead < lookahead { mxLookahead := lookahead; }
        if mnLookahead > lookahead { mnLookahead, mnAction := lookahead, action; }
      }
      aLookahead := aLookahead + [Entry(lookahead, action)];
      PendingMore(before, mn, mnA, mx, lookahead, action);
    }

    /** Makes room for one more set: at least one slot more than there are symbols. */
    method Grow()
      requires Valid()
      modifies this`aAction
      ensures Valid() && aAction == Room(old(aAction), nAction, nsymbol)
      ensures old(AllRead()) ==> AllRead()
    {
      ghost var before := aAction;
      RoomSound(before, nAction, nsymbol, placed);
      if nAction + nsymbol + 1 >= |aAction| {
        aAction := aAction + seq(nAction + nsymbol + 1 + 20, i => Empty);
      }
    }

    /** Writes the pending set with its least lookahead at index i. */
    method Store(i: nat, safe: bool)
      requires TargetsBelow(i - mnLookahead, aLookahead, |aAction|)
      modifies this`aAction, this`nAction
      ensures aAction == Written(old(aAction), i - mnLookahead, aLookahead, |aLookahead|)
      ensures nAction == SafeSize(Size(old(nAction), i - mnLookahead, aLookahead, |aLookahead|), i, nterminal, safe)
    {
      var o := i - mnLookahead;
      var j := 0;
      while j < |aLookahead|
        invariant j <= |aLookahead|
        invariant aAction == Written(old(aAction), o, aLookahead, j)
        invariant nAction == Size(old(nAction), o, aLookahead, j)
      {
        var k := aLookahead[j].lookahead - mnLookahead + i;
        aAction := aAction[k := aLookahead[j]];
        if k >= nAction { nAction := k + 1; }
        j := j + 1;
      }
      if safe && i + nterminal >= nAction { nAction := i + nterminal + 1; }
    }

    /** Inserts the pending set where the search stops: at an identical set, else in the
        lowest hole, else where it gives up. All sets read back, if they did before and
        if and only if that place is usable. The offset of a safe set keeps every
        terminal below the used size. */
    method Insert(safe: bool) returns (r: Outcome)
      requires Valid() && aLookahead != []
      modifies this
      ensures Valid()
      ensures var slots, n := Room(old(aAction), old(nAction), nsymbol), old(nAction);
        var entries, mn := old(aLookahead), old(mnLookahead);
        var i := Stop(slots, n, entries, mn, old(mxLookahead), if safe then mn else 0);
        && (r.PastEnd? <==> !TargetsBelow(i - mn, entries, |slots|))
        && (r.PastEnd? ==> aAction == slots && nAction == n && aLookahead == entries && placed == old(placed))
        && (r.Stored? ==>
              && r.offset == i - mn && aLookahead == []
              && aAction == Written(slots, i - mn, entries, |entries|)
              && nAction == SafeSize(Size(n, i - mn, entries, |entries|), i, nterminal, safe)
              && placed == old(placed) + [Placed(r.offset, entries)]
              && (old(AllRead()) ==> (AllRead() <==> Usable(slots, n, r.offset, entries))))
      ensures var slots, n := Room(old(aAction), old(nAction), nsymbol), old(nAction);
        var entries, mn := old(aLookahead), old(mnLookahead);
        && (r.Stored? ==> StoredAt(slots, n, entries, r.offset + mn, mn, old(mxLookahead), nterminal, safe, nAction))
        && (StandsFrom(slots, n, entries, mn, if safe then mn else 0) ==>
              r.Stored? && Reused(slots, n, entries, r.offset + mn, mn, nterminal, safe, aAction, nAction))
        && (old(AllRead()) && Again(old(placed), entries, safe) ==>
              r.Stored? && Reused(slots, n, entries, r.offset + mn, mn, nterminal, safe, aAction, nAction))
      ensures safe && r.Stored? ==> r.offset >= 0 && r.offset + nterminal <= nAction
      ensures r.Stored? ==>
        (nAction <= |aAction| <==> !safe || r.offset + old(mnLookahead) + nterminal < |aAction|)
    {
      hide Usable, Written, Sound, TargetsBelow, Pending, IsSet, AllExact, Stop, Room, Size, Reused, StoredAt, StandsFrom,
        Again;
      PendingSet(aLookahead, mnLookahead, mnAction, mxLookahead);
      Grow();
      ghost var slots, n := aAction, nAction;
      StoredWell(slots, n, aLookahead, mnLookahead, mxLookahead, nterminal, safe);
      if old(AllRead()) && Again(placed, aLookahead, safe) {
        AgainStands(slots, n, aLookahead, mnLookahead, mnAction, mxLookahead, placed, safe);
      }
      var i := Search(aAction, nAction, aLookahead, mnLookahead, mnAction, mxLookahead,
                      if safe then mnLookahead else 0);
      var inside := InsideArray(|aAction|, aLookahead, i - mnLookahead);
      if !inside { return PastEnd; }
      Store(i, safe);
      SizeInside(n, i - mnLookahead, aLookahead, |aLookahead|, |slots|);
      r := Stored(i - mnLookahead);
      StoredSound(slots, n, r.offset, aLookahead, nAction, placed);
      if old(AllRead()) { ReadExact(slots, n, r.offset, aLookahead, placed); }
      placed := placed + [Placed(r.offset, aLookahead)];
      aLookahead := [];
      NonePending(mnLookahead, mnAction, mxLookahead);
    }
  }

  lemma PendingMore(entries: seq<Entry>, mn: int, mnAction: int, mx: int, lookahead: int, action: int)
    requires Pending(entries, mn, mnAction, mx) && lookahead >= 0
    requires forall i :: 0 <= i < |entries| ==> entries[i].lookahead != lookahead
    ensures var more := entries + [Entry(lookahead, action)];
      if entries == [] then Pending(more, lookahead, action, lookahead)
      else Pending(more, if mn > lookahead then lookahead else mn, if mn > lookahead then action else mnAction,
                   if mx < lookahead then lookahead else mx)
  {
    var more := entries + [Entry(lookahead, action)];
    assert more[|entries|] == Entry(lookahead, action);
    assert forall i :: 0 <= i < |entries| ==> more[i] == entries[i];
    if entries != [] {
      var e :| e in entries && e.lookahead == mx;
      assert e in more && Entry(lookahead, action) in more;
    }
  }

  lemma PendingSet(entries: seq<Entry>, mn: int, mnAction: int, mx: int)
    requires entries != [] && Pending(entries, mn, mnAction, mx)
    ensures IsSet(entries) && 0 <= mn <= mx
  {
    assert Entry(mn, mnAction) in entries;
  }

  lemma NonePending(mn: int, mnAction: int, mx: int)
    ensures Pending([], mn, mnAction, mx)
  {
  }

  lemma RoomSlot(slots: Slots, n: nat, nsymbol: nat, k: nat)
    requires k < |Room(slots, n, nsymbol)|
    ensures Room(slots, n, nsymbol)[k] == if k < |slots| then slots[k] else Empty
  {
  }

  /** More room changes no set. */
  lemma RoomSound(slots: Slots, n: nat, nsymbol: nat, placed: seq<Placed>)
    requires Sound(slots, n, placed)
    ensures Sound(Room(slots, n, nsymbol), n, placed)
    ensures AllExact(slots, placed) ==> AllExact(Room(slots, n, nsymbol), placed)
  {
    var r := Room(slots, n, nsymbol);
    forall k | 0 <= k < |r| ensures r[k] == if k < |slots| then slots[k] else Empty {
      RoomSlot(slots, n, nsymbol, k);
    }
    hide Room, Exact;
    if AllExact(slots, placed) {
      forall p | 0 <= p < |placed| ensures Exact(r, placed[p]) {
        MoreExact(slots, r, placed[p]);
      }
    }
  }

  lemma MoreExact(slots: Slots, more: Slots, p: Placed)
    requires |slots| <= |more| && Exact(slots, p)
    requires forall k :: 0 <= k < |more| ==> more[k] == if k < |slots| then slots[k] else Empty
    ensures Exact(more, p)
  {
  }

  lemma StoredSound(slots: Slots, n: nat, o: int, entries: seq<Entry>, n': nat, placed: seq<Placed>)
    requires IsSet(entries) && Sound(slots, n, placed) && TargetsBelow(o, entries, |slots|)
    requires n' >= Size(n, o, entries, |entries|)
    ensures Sound(Written(slots, o, entries, |entries|), n', placed + [Placed(o, entries)])
  {
    hide Sound, Written;
    SoundWritten(slots, n, o, entries, n', placed);
  }

  /* ---- The search ---- */

  /** Where the least lookahead goes: over an identical set, else in a hole. */
  method Search(slots: Slots, n: nat, entries: seq<Entry>, mn: int, mnAction: int, mx: int, end: nat)
      returns (i: nat)
    requires n <= |slots| && entries != [] && Pending(entries, mn, mnAction, mx) && end <= mn
    ensures i == Stop(slots, n, entries, mn, mx, end)
  {
    hide Pending, FitsAt, Duplicate;
    var d := FindDuplicate(slots, n, entries, mn, mnAction, mx, end);
    if d < end {
      i := FindHole(slots, n, entries, mn, mnAction, mx, end);
    } else {
      i := d;
    }
  }

  /** The highest index of the least lookahead of an identical set, or below `end`. */
  method FindDuplicate(slots: Slots, n: nat, entries: seq<Entry>, mn: int, mnAction: int, ghost mx: int, end: nat)
      returns (i: int)
    requires n <= |slots| && entries != [] && Pending(entries, mn, mnAction, mx)
    ensures i >= end <==> HasDuplicate(slots, n, entries, mn, end)
    ensures i >= end ==> i == DuplicateFrom(slots, n, entries, mn, end, n - 1)
  {
    hide Pending, DuplicateAt;
    i := n - 1;
    while i >= end
      invariant end - 1 <= i < n || i == n - 1
      invariant end < n ==> DuplicateFrom(slots, n, entries, mn, end, n - 1) == DuplicateFrom(slots, n, entries, mn, end, i)
    {
      var stands := TryDuplicate(slots, n, entries, mn, mnAction, mx, i);
      if stands { return; }
      i := i - 1;
    }
  }

  /** Whether the set stands at index i. */
  method TryDuplicate(slots: Slots, n: nat, entries: seq<Entry>, mn: int, mnAction: int, ghost mx: int, i: nat)
      returns (stands: bool)
    requires n <= |slots| && i < n && entries != [] && Pending(entries, mn, mnAction, mx)
    ensures stands == DuplicateAt(slots, n, entries, mn, i)
  {
    LeastStands(slots, n, entries, mn, mnAction, mx, i);
    hide Claims, Pending;
    stands := false;
    if slots[i] == Entry(mn, mnAction) {
      var j := 0;
      while j < |entries| && Matches(slots, n, i - mn, entries[j])
        invariant j <= |entries|
        invariant forall m :: 0 <= m < j ==> Matches(slots, n, i - mn, entries[m])
      {
        j := j + 1;
      }
      if j == |entries| {
        var count := CountClaims(slots, n, i - mn);
        stands := count == |entries|;
      }
    }
  }

  lemma LeastStands(slots: Slots, n: nat, entries: seq<Entry>, mn: int, mnAction: int, mx: int, i: nat)
    requires n <= |slots| && i < n && entries != [] && Pending(entries, mn, mnAction, mx)
    ensures Duplicate(slots, n, i - mn, entries) ==> slots[i] == Entry(mn, mnAction)
  {
    var m :| 0 <= m < |entries| && entries[m] == Entry(mn, mnAction);
    hide Claims;
  }

  /** The lowest index where the least lookahead can go, from `start` on; if none is
      found, the index where the search gives up. */
  method FindHole(slots: Slots, n: nat, entries: seq<Entry>, mn: int, mnAction: int, mx: int, start: nat)
      returns (i: nat)
    requires n <= |slots| && entries != [] && Pending(entries, mn, mnAction, mx) && start <= mn
    ensures i == HoleFrom(slots, n, entries, mn, mx, start)
  {
    hide Pending, FitsAt;
    i := start;
    while i < |slots| - mx
      invariant HoleFrom(slots, n, entries, mn, mx, start) == HoleFrom(slots, n, entries, mn, mx, i)
    {
      var fits := TryHole(slots, n, entries, mn, mnAction, mx, i);
      if fits { return; }
      i := i + 1;
    }
  }

  /** Whether the set fits at index i: its slots are empty, and no slot claims the offset. */
  method TryHole(slots: Slots, n: nat, entries: seq<Entry>, mn: int, mnAction: int, mx: int, i: nat)
      returns (fits: bool)
    requires n <= |slots| && entries != [] && Pending(entries, mn, mnAction, mx) && i < |slots| - mx
    ensures fits == FitsAt(slots, n, entries, mn, i)
  {
    var o := i - mn;
    fits := false;
    if slots[i].lookahead < 0 {
      var j := 0;
      while j < |entries|
        invariant j <= |entries|
        invariant forall m :: 0 <= m < j ==> slots[o + entries[m].lookahead].lookahead < 0
      {
        if slots[o + entries[j].lookahead].lookahead >= 0 { return; }
        j := j + 1;
      }
      j := 0;
      while j < n
        invariant j <= n && forall m :: 0 <= m < j ==> slots[m].lookahead != m - o
      {
        if slots[j].lookahead == j - o { return; }
        j := j + 1;
      }
      fits := true;
    } else {
      ghost var m :| 0 <= m < |entries| && entries[m] == Entry(mn, mnAction);
      assert slots[o + entries[m].lookahead].lookahead >= 0;
    }
  }

  predicate Matches(slots: Slots, n: nat, o: int, e: Entry)
    requires n <= |slots|
  {
    var k := o + e.lookahead; 0 <= k < n && slots[k] == e
  }

  method CountClaims(slots: Slots, n: nat, o: int) returns (count: nat)
    requires n <= |slots|
    ensures count == Claims(slots, n, o)
  {
    count := 0;
    var j := 0;
    while j < n
      invariant j <= n && count == Claims(slots, j, o)
    {
      if slots[j].lookahead >= 0 && slots[j].lookahead == j - o { count := count + 1; }
      j := j + 1;
    }
  }

  /** Whether all pairs go inside an array of this size. */
  method InsideArray(size: nat, entries: seq<Entry>, o: int) returns (inside: bool)
    ensures inside == TargetsBelow(o, entries, size)
  {
    var j := 0;
    while j < |entries| && 0 <= o + entries[j].lookahead < size
      invariant j <= |entries|
      invariant forall m :: 0 <= m < j ==> 0 <= o + entries[m].lookahead < size
    {
      j := j + 1;
    }
    inside := j == |entries|;
  }

  /* ---- When the search gives up ---- */

  /** Fifteen sets with lookahead zero, and four with higher ones that claim the last places. */
  function CrowdedAt(symbols: nat, k: nat): Entry
    requires symbols > 24
  {
    if k < 15 then Entry(0, k) else Entry(symbols - 38 + 2 * k, 0)
  }

  /** The array when m of these sets are inserted, one behind the other. */
  function Crowded(symbols: nat, m: nat): (r: Slots)
    requires symbols > 24 && m <= 19
    ensures |r| == symbols + 21
    ensures forall k :: 0 <= k < |r| ==> r[k] == if k < m then CrowdedAt(symbols, k) else Empty
  {
    seq(symbols + 21, k requires 0 <= k => if k < m then CrowdedAt(symbols, k) else Empty)
  }

  /** Where the search stops, by what is found there and not before. */
  lemma StopIs(slots: Slots, n: nat, entries: seq<Entry>, mn: int, mx: int, i: nat)
    requires n <= |slots| && (forall k :: 0 <= k < n ==> !DuplicateAt(slots, n, entries, mn, k))
    requires i <= |slots| - mx && (forall k :: 0 <= k < i ==> !FitsAt(slots, n, entries, mn, k))
    requires i == |slots| - mx || FitsAt(slots, n, entries, mn, i)
    ensures Stop(slots, n, entries, mn, mx, 0) == i
  {
    hide DuplicateAt, FitsAt;
    var h := HoleFrom(slots, n, entries, mn, mx, 0);
  }

  /** The next of these sets goes right behind the others. */
  lemma CrowdedStop(symbols: nat, m: nat)
    requires symbols > 24 && m < 19
    ensures var e := CrowdedAt(symbols, m);
      Stop(Crowded(symbols, m), m, [e], e.lookahead, e.lookahead, 0) == m
  {
    var slots, e := Crowded(symbols, m), CrowdedAt(symbols, m);
    hide Crowded;
    forall k | 0 <= k < m
      ensures !DuplicateAt(slots, m, [e], e.lookahead, k) && !FitsAt(slots, m, [e], e.lookahead, k)
    {
      NoPlaceUsed(slots, m, e, k);
    }
    assert FitsAt(slots, m, [e], e.lookahead, m);
    StopIs(slots, m, [e], e.lookahead, e.lookahead, m);
  }

  /** A single pair neither stands nor fits where another pair is. */
  lemma NoPlaceUsed(slots: Slots, n: nat, e: Entry, k: nat)
    requires k < n <= |slots| && slots[k].lookahead >= 0 && slots[k] != e
    ensures !DuplicateAt(slots, n, [e], e.lookahead, k) && !FitsAt(slots, n, [e], e.lookahead, k)
  {
    hide Claims;
    var entries := [e];
    assert k - e.lookahead + entries[0].lookahead == k;
  }

  lemma CrowdedNext(symbols: nat, m: nat)
    requires symbols > 24 && m < 19
    ensures var e := CrowdedAt(symbols, m);
      && TargetsBelow(m - e.lookahead, [e], symbols + 21)
      && Written(Crowded(symbols, m), m - e.lookahead, [e], 1) == Crowded(symbols, m + 1)
      && Size(m, m - e.lookahead, [e], 1) == m + 1
  {
    var e := CrowdedAt(symbols, m);
    var slots := Crowded(symbols, m);
    assert Written(slots, m - e.lookahead, [e], 0) == slots && Size(m, m - e.lookahead, [e], 0) == m;
    assert slots[m := e] == Crowded(symbols, m + 1);
  }

  /** With the last one in, a set of the highest lookahead alone finds no place: there is
      room by the source's own measure, and still the search gives up; and the place
      where it does is claimed by another set. */
  lemma SearchRunsOut(symbols: nat, action: int)
    requires symbols > 24
    ensures var slots, x, entries := Crowded(symbols, 19), symbols - 1, [Entry(symbols - 1, action)];
      && Room(slots, 19, symbols) == slots
      && GivesUp(slots, 19, entries, x, x, 0) && Stop(slots, 19, entries, x, x, 0) == 22
      && TargetsBelow(22 - x, entries, |slots|) && !Usable(slots, 19, 22 - x, entries)
  {
    var slots, x, e := Crowded(symbols, 19), symbols - 1, Entry(symbols - 1, action);
    hide Crowded;
    forall k | 0 <= k < 22 ensures !FitsAt(slots, 19, [e], x, k) {
      if k < 19 {
        NoPlaceUsed(slots, 19, e, k);
      } else {
        assert slots[37 - k].lookahead == 37 - k - (k - x);
      }
    }
    forall k | 0 <= k < 19 ensures !DuplicateAt(slots, 19, [e], x, k) {
      NoPlaceUsed(slots, 19, e, k);
    }
    StopIs(slots, 19, [e], x, x, 22);
    ClaimedPlace(slots, 19, 22 - x, e);
  }

  /** The slot fifteen claims the place. */
  lemma ClaimedPlace(slots: Slots, n: nat, o: int, e: Entry)
    requires 15 < n <= |slots| && slots[15].lookahead == 15 - o && slots[15].lookahead >= 0
    requires 0 <= o + e.lookahead < |slots| && n <= o + e.lookahead
    ensures TargetsBelow(o, [e], |slots|) && !Usable(slots, n, o, [e])
  {
    assert Claims1(slots[15], 15, o);
    hide Claims;
    var entries := [e];
    assert o + entries[0].lookahead >= n;
  }

  /** Twenty sets that the generator inserts one after the other, none of which is a
      safe one: after the last of them not all sets read back. */
  method Overcrowd(symbols: nat, terminals: nat, action: int) returns (table: ActTab)
    requires symbols > 24
    ensures fresh(table) && table.Valid() && |table.placed| == 20 && !table.AllRead()
  {
    table := new ActTab(symbols, terminals);
    hide Stop, Usable, TargetsBelow, Written, Size, Crowded, AllExact, Sound, Room, SafeSize, GivesUp;
    RoomLeft(symbols, 0);
    var m := 0;
    while m < 19
      invariant m <= 19 && fresh(table) && table.Valid() && table.nsymbol == symbols
      invariant table.aLookahead == [] && |table.placed| == m == table.nAction
      invariant Room(table.aAction, m, symbols) == Crowded(symbols, m)
      invariant table.AllRead()
    {
      var e := CrowdedAt(symbols, m);
      table.Action(e.lookahead, e.action);
      Single(e, table.mnLookahead, table.mnAction, table.mxLookahead);
      CrowdedStop(symbols, m);
      CrowdedNext(symbols, m);
      CrowdedUsable(symbols, m);
      SizeOf(m + 1, m, table.nterminal);
      var r := table.Insert(false);
      RoomLeft(symbols, m + 1);
      m := m + 1;
    }
    table.Action(symbols - 1, action);
    Single(Entry(symbols - 1, action), table.mnLookahead, table.mnAction, table.mxLookahead);
    SearchRunsOut(symbols, action);
    var r := table.Insert(false);
  }

  lemma Single(e: Entry, mn: int, mnAction: int, mx: int)
    requires Pending([] + [e], mn, mnAction, mx)
    ensures [] + [e] == [e] && mn == mx == e.lookahead
  {
    assert [e][0] == e;
  }

  lemma SizeOf(size: int, i: int, nterminal: nat)
    ensures SafeSize(size, i, nterminal, false) == size
  {
  }

  lemma RoomLeft(symbols: nat, m: nat)
    requires symbols > 24 && m <= 19
    ensures m > 0 ==> Room(Crowded(symbols, m), m, symbols) == Crowded(symbols, m)
    ensures Room([], 0, symbols) == Crowded(symbols, 0)
  {
    assert Room([], 0, symbols) == Crowded(symbols, 0);
  }

  lemma CrowdedUsable(symbols: nat, m: nat)
    requires symbols > 24 && m < 19
    ensures var e := CrowdedAt(symbols, m); Usable(Crowded(symbols, m), m, m - e.lookahead, [e])
  {
    var e := CrowdedAt(symbols, m);
    hide Crowded;
    assert Free(Crowded(symbols, m), m - e.lookahead, [e]);
  }
}
