/** The order in which the merge sort leaves cells with equal keys. */
module SortTies {
  import opened MergeSort

  /** The cells with this key, in order. */
  function Only(keys: seq<int>, k: int, s: seq<nat>): seq<nat>
    requires InRange(s, keys)
  {
    if s == [] then []
    else (if keys[s[0]] == k then [s[0]] else []) + Only(keys, k, s[1..])
  }

  lemma {:induction false} OnlyNone(keys: seq<int>, k: int, s: seq<nat>)
    requires InRange(s, keys) && forall i :: 0 <= i < |s| ==> keys[s[i]] != k
    ensures Only(keys, k, s) == []
  {
    if s != [] { OnlyNone(keys, k, s[1..]); }
  }

  lemma OnlyCons(keys: seq<int>, k: int, x: nat, s: seq<nat>)
    requires x < |keys| && InRange(s, keys)
    ensures Only(keys, k, [x] + s) == (if keys[x] == k then [x] else []) + Only(keys, k, s)
  {
    assert ([x] + s)[1..] == s;
  }

  /** Merging puts the first list's cells before the second one's with the same key. */
  lemma {:induction false} MergedTies(keys: seq<int>, k: int, a: seq<nat>, b: seq<nat>)
    requires InRange(a, keys) && InRange(b, keys) && Sorted(keys, a) && Sorted(keys, b)
    ensures Only(keys, k, Merged(keys, a, b)) == Only(keys, k, a) + Only(keys, k, b)
    decreases |a| + |b|
  {
    hide Only;
    OnlyNothing(keys, k);
    if a != [] && b != [] {
      if keys[a[0]] <= keys[b[0]] {
        MergedTies(keys, k, a[1..], b);
        OnlyCons(keys, k, a[0], Merged(keys, a[1..], b));
        OnlyFirst(keys, k, a);
      } else {
        MergedTies(keys, k, a, b[1..]);
        OnlyCons(keys, k, b[0], Merged(keys, a, b[1..]));
        OnlyFirst(keys, k, b);
        if keys[b[0]] == k { OnlyNone(keys, k, a); }
      }
    }
  }

  lemma OnlyNothing(keys: seq<int>, k: int)
    ensures Only(keys, k, []) == []
  {
  }

  lemma OnlyFirst(keys: seq<int>, k: int, s: seq<nat>)
    requires InRange(s, keys) && s != []
    ensures Only(keys, k, s) == (if keys[s[0]] == k then [s[0]] else []) + Only(keys, k, s[1..])
  {
  }

  /* ---- Ties are placed as if all keys were equal ---- */

  function Flat(keys: seq<int>): (r: seq<int>)
    ensures |r| == |keys| && forall i :: 0 <= i < |r| ==> r[i] == 0
  {
    seq(|keys|, _ => 0)
  }

  lemma {:induction false} MergedFlat(keys: seq<int>, a: seq<nat>, b: seq<nat>)
    requires InRange(a, keys) && InRange(b, keys) && forall i :: 0 <= i < |keys| ==> keys[i] == 0
    ensures Merged(keys, a, b) == a + b
    decreases |a|
  {
    if a != [] && b != [] {
      MergedFlat(keys, a[1..], b);
      assert a + b == [a[0]] + (a[1..] + b);
    }
  }

  /** The same cells of this key, in the same order. */
  predicate Alike(keys: seq<int>, k: int, s: seq<nat>, t: seq<nat>) {
    && InRange(s, keys) && InRange(t, keys) && (s == [] <==> t == []) && Only(keys, k, s) == Only(keys, k, t)
  }

  predicate BucketsAlike(keys: seq<int>, k: int, b: Buckets, f: Buckets) {
    |b| == |f| && forall i :: 0 <= i < |b| ==> Alike(keys, k, b[i], f[i])
  }

  lemma {:induction false} OnlyAppend(keys: seq<int>, k: int, a: seq<nat>, b: seq<nat>)
    requires InRange(a, keys) && InRange(b, keys)
    ensures Only(keys, k, a + b) == Only(keys, k, a) + Only(keys, k, b)
  {
    hide Only;
    OnlyNothing(keys, k);
    if a == [] {
      assert a + b == b;
    } else {
      OnlyAppend(keys, k, a[1..], b);
      OnlyFirst(keys, k, a);
      OnlyCons(keys, k, a[0], a[1..] + b);
      assert a + b == [a[0]] + (a[1..] + b);
    }
  }

  lemma AlikeMerged(keys: seq<int>, k: int, a: seq<nat>, b: seq<nat>, x: seq<nat>, y: seq<nat>)
    requires Alike(keys, k, a, x) && Alike(keys, k, b, y) && Sorted(keys, a) && Sorted(keys, b)
    ensures Alike(keys, k, Merged(keys, a, b), Merged(Flat(keys), x, y)) && Sorted(keys, Merged(keys, a, b))
  {
    MergedTies(keys, k, a, b);
    MergedFlat(Flat(keys), x, y);
    OnlyAppend(keys, k, x, y);
    MergedSorted(keys, a, b);
    MergedCells(keys, a, b);
  }

  lemma {:induction false} CarryAlike(keys: seq<int>, k: int, b: Buckets, f: Buckets, e: seq<nat>, d: seq<nat>, i: nat)
    requires BucketsOk(b, keys) && BucketsOk(f, keys) && BucketsAlike(keys, k, b, f) && Alike(keys, k, e, d)
    requires AllSorted(keys, b) && Sorted(keys, e) && i <= Last(b)
    ensures BucketsOk(f, Flat(keys)) && BucketsAlike(keys, k, Carry(keys, b, e, i), Carry(Flat(keys), f, d, i))
    decreases Last(b) - i
  {
    hide Alike, Merged, Sorted;
    assert Alike(keys, k, b[i], f[i]);
    AlikeEmpty(keys, k, b[i], f[i]);
    AlikeEmpty(keys, k, e, d);
    if i < Last(b) && b[i] != [] {
      AlikeMerged(keys, k, e, b[i], d, f[i]);
      AlikeNothing(keys, k);
      CarryAlike(keys, k, b[i := []], f[i := []], Merged(keys, e, b[i]), Merged(Flat(keys), d, f[i]), i + 1);
    }
  }

  lemma AlikeEmpty(keys: seq<int>, k: int, s: seq<nat>, t: seq<nat>)
    requires Alike(keys, k, s, t)
    ensures InRange(s, keys) && InRange(t, keys) && InRange(t, Flat(keys)) && (s == [] <==> t == [])
  {
  }

  lemma AlikeNothing(keys: seq<int>, k: int)
    ensures Alike(keys, k, [], []) && Sorted(keys, [])
  {
  }

  lemma {:induction false} LoadAlike(keys: seq<int>, k: int, b: Buckets, f: Buckets, list: seq<nat>)
    requires BucketsOk(b, keys) && BucketsOk(f, keys) && BucketsAlike(keys, k, b, f) && AllSorted(keys, b)
    requires InRange(list, keys)
    ensures BucketsOk(f, Flat(keys)) && BucketsAlike(keys, k, Load(keys, b, list), Load(Flat(keys), f, list))
    decreases |list|
  {
    hide Alike, Carry, Sorted;
    if list != [] {
      AlikeSelf(keys, k, [list[0]]);
      CarryAlike(keys, k, b, f, [list[0]], [list[0]], 0);
      CarrySorted(keys, b, [list[0]], 0);
      LoadAlike(keys, k, Carry(keys, b, [list[0]], 0), Carry(Flat(keys), f, [list[0]], 0), list[1..]);
    }
  }

  lemma AlikeSelf(keys: seq<int>, k: int, s: seq<nat>)
    requires InRange(s, keys)
    ensures Alike(keys, k, s, s) && (|s| <= 1 ==> Sorted(keys, s))
  {
  }

  lemma {:induction false} GatherAlike(keys: seq<int>, k: int, b: Buckets, f: Buckets, i: nat, e: seq<nat>, d: seq<nat>)
    requires BucketsOk(b, keys) && BucketsOk(f, keys) && BucketsAlike(keys, k, b, f) && AllSorted(keys, b)
    requires Alike(keys, k, e, d) && Sorted(keys, e) && i <= |b|
    ensures BucketsOk(f, Flat(keys)) && Alike(keys, k, Gather(keys, b, i, e), Gather(Flat(keys), f, i, d))
    decreases |b| - i
  {
    hide Alike, Merged, Sorted;
    AlikeEmpty(keys, k, e, d);
    if i < |b| {
      assert Alike(keys, k, b[i], f[i]);
      AlikeEmpty(keys, k, b[i], f[i]);
      if b[i] != [] {
        AlikeMerged(keys, k, b[i], e, f[i], d);
        GatherAlike(keys, k, b, f, i + 1, Merged(keys, b[i], e), Merged(Flat(keys), f[i], d));
      } else {
        GatherAlike(keys, k, b, f, i + 1, e, d);
      }
    }
  }

  lemma TiesAsFlat(keys: seq<int>, k: int, list: seq<nat>)
    requires InRange(list, keys)
    ensures InRange(Sort(Flat(keys), list), keys)
    ensures Only(keys, k, Sort(keys, list)) == Only(keys, k, Sort(Flat(keys), list))
  {
    hide Gather, Load, Sorted, Alike;
    var b := NoBuckets();
    forall i | 0 <= i < |b| ensures Alike(keys, k, b[i], b[i]) && Sorted(keys, b[i]) {
      AlikeNothing(keys, k);
    }
    LoadAlike(keys, k, b, b, list);
    LoadSorted(keys, b, list);
    AlikeNothing(keys, k);
    GatherAlike(keys, k, Load(keys, b, list), Load(Flat(keys), b, list), 0, [], []);
    AlikeOnly(keys, k, Sort(keys, list), Sort(Flat(keys), list));
  }

  lemma AlikeOnly(keys: seq<int>, k: int, s: seq<nat>, t: seq<nat>)
    requires Alike(keys, k, s, t)
    ensures InRange(s, keys) && InRange(t, keys) && Only(keys, k, s) == Only(keys, k, t)
  {
  }

  /* ---- Where ties are placed ---- */

  function Reversed(s: seq<nat>): (r: seq<nat>)
    ensures |r| == |s| && forall i :: 0 <= i < |s| ==> r[i] == s[|s| - 1 - i]
  {
    seq(|s|, i requires 0 <= i < |s| => s[|s| - 1 - i])
  }

  /** The list cut into blocks of descending powers of two, below 2^n, each turned round. */
  function Blocks(list: seq<nat>, n: nat): seq<nat> {
    if n == 0 then []
    else if |list| >= Pow2(n - 1) then Reversed(list[..Pow2(n - 1)]) + Blocks(list[Pow2(n - 1)..], n - 1)
    else Blocks(list, n - 1)
  }

  /** The buckets below n, the highest first: turned round they are the list so far. */
  function Unfold(b: Buckets, n: nat): seq<nat>
    requires n <= |b|
  {
    if n == 0 then [] else Reversed(b[n - 1]) + Unfold(b, n - 1)
  }

  function Fold(b: Buckets, n: nat): seq<nat>
    requires n <= |b|
  {
    if n == 0 then [] else b[n - 1] + Fold(b, n - 1)
  }

  predicate AllFlat(keys: seq<int>) { forall i :: 0 <= i < |keys| ==> keys[i] == 0 }

  lemma ReversedAppend(a: seq<nat>, b: seq<nat>)
    ensures Reversed(a + b) == Reversed(b) + Reversed(a)
  {
  }

  /** Buckets that are alike but for one. */
  lemma {:induction false} UnfoldUpdate(b: Buckets, i: nat, e: seq<nat>, n: nat) returns (front: seq<nat>, back: seq<nat>)
    requires i < n <= |b|
    ensures Unfold(b, n) == front + Reversed(b[i]) + back && Unfold(b[i := e], n) == front + Reversed(e) + back
    ensures back == Unfold(b, i)
    decreases n
  {
    if i == n - 1 {
      front, back := [], Unfold(b, i);
      UnfoldSame(b, b[i := e], i);
    } else {
      front, back := UnfoldUpdate(b, i, e, n - 1);
      front := Reversed(b[n - 1]) + front;
    }
  }

  lemma {:induction false} UnfoldSame(b: Buckets, c: Buckets, n: nat)
    requires n <= |b| == |c| && forall i :: 0 <= i < n ==> b[i] == c[i]
    ensures Unfold(b, n) == Unfold(c, n)
  {
    if n > 0 { UnfoldSame(b, c, n - 1); }
  }

  /** With the buckets below empty, carrying a list puts it behind all others. */
  lemma {:induction false} CarryFlat(keys: seq<int>, b: Buckets, e: seq<nat>, i: nat)
    requires BucketsOk(b, keys) && InRange(e, keys) && i <= Last(b) && AllFlat(keys)
    requires Unfold(b, i) == [] && (FullFrom(b, i) ==> b[Last(b)] == [])
    ensures Unfold(Carry(keys, b, e, i), |b|) == Unfold(b, |b|) + Reversed(e)
    decreases Last(b) - i
  {
    hide Unfold, Merged, FullFrom;
    if i < Last(b) && b[i] != [] {
      MergedFlat(keys, e, b[i]);
      ReversedAppend(e, b[i]);
      var c := b[i := []];
      var front, back := UnfoldUpdate(b, i, [], |b|);
      UnfoldNext(b, c, i);
      StillFull(b, i);
      CarryFlat(keys, c, e + b[i], i + 1);
      assert Unfold(c, |b|) + (Reversed(b[i]) + Reversed(e)) == Unfold(b, |b|) + Reversed(e);
    } else {
      var front, back := UnfoldUpdate(b, i, e, |b|);
      Overwritten(b, i);
    }
  }

  lemma UnfoldNext(b: Buckets, c: Buckets, i: nat)
    requires i < |b| && c == b[i := []] && Unfold(b, i) == []
    ensures Unfold(c, i + 1) == []
  {
    UnfoldSame(b, c, i);
  }

  lemma Overwritten(b: Buckets, i: nat)
    requires |b| > 0 && i <= Last(b) && (FullFrom(b, i) ==> b[Last(b)] == [])
    ensures i == Last(b) ==> b[i] == []
  {
  }

  lemma {:induction false} LoadFlat(keys: seq<int>, b: Buckets, list: seq<nat>, c: nat)
    requires BucketsOk(b, keys) && InRange(list, keys) && AllFlat(keys)
    requires Counted(b, c) && c + |list| < 2 * Pow2(Last(b))
    ensures Counted(Load(keys, b, list), c + |list|)
    ensures Unfold(Load(keys, b, list), |b|) == Unfold(b, |b|) + list
    decreases |list|
  {
    hide Carry, Counted, Pow2;
    if list != [] {
      CarryOne(keys, b, list[0], c);
      CarryFlat(keys, b, [list[0]], 0);
      LoadFlat(keys, Carry(keys, b, [list[0]], 0), list[1..], c + 1);
      assert Unfold(b, |b|) + [list[0]] + list[1..] == Unfold(b, |b|) + list;
    }
  }

  lemma {:induction false} GatherFlat(keys: seq<int>, b: Buckets, i: nat)
    requires BucketsOk(b, keys) && i <= |b| && AllFlat(keys) && InRange(Fold(b, i), keys)
    ensures Gather(keys, b, i, Fold(b, i)) == Fold(b, |b|)
    decreases |b| - i
  {
    if i < |b| {
      MergedFlat(keys, b[i], Fold(b, i));
      GatherFlat(keys, b, i + 1);
    }
  }

  /** Buckets of powers of two are the blocks of what they hold. */
  lemma {:induction false} FoldBlocks(b: Buckets, n: nat)
    requires n <= |b| && forall i :: 0 <= i < n ==> b[i] == [] || |b[i]| == Pow2(i)
    ensures |Unfold(b, n)| < Pow2(n) && Fold(b, n) == Blocks(Unfold(b, n), n)
  {
    hide Reversed;
    if n > 0 {
      FoldBlocks(b, n - 1);
      BlockSplit(b[n - 1], Unfold(b, n - 1));
    }
  }

  lemma BlockSplit(x: seq<nat>, rest: seq<nat>)
    ensures var list := Reversed(x) + rest;
      |list| == |x| + |rest| && list[..|x|] == Reversed(x) && list[|x|..] == rest && Reversed(Reversed(x)) == x
    ensures x == [] ==> Reversed(x) + rest == rest && x + rest == rest
  {
  }

  /** Cells with equal keys: the list is cut into blocks of descending powers of two; the
      blocks stay in order, and within each the cells are turned round. */
  lemma SortTies(keys: seq<int>, k: int, list: seq<nat>)
    requires InRange(list, keys) && |list| < Pow2(30)
    ensures InRange(Blocks(list, 30), keys) && Only(keys, k, Sort(keys, list)) == Only(keys, k, Blocks(list, 30))
  {
    hide Only, Load, Gather, Blocks, Unfold, Fold;
    assert Pow2(30) == 2 * Pow2(29);
    hide Pow2;
    TiesAsFlat(keys, k, list);
    FlatBlocks(Flat(keys), list);
  }

  lemma FlatBlocks(keys: seq<int>, list: seq<nat>)
    requires AllFlat(keys) && InRange(list, keys) && |list| < 2 * Pow2(29)
    ensures Sort(keys, list) == Blocks(list, 30)
  {
    hide *;
    NoBucketsOk(keys);
    var b := Load(keys, NoBuckets(), list);
    NothingLoaded();
    NothingUnfolded(30);
    LoadFlat(keys, NoBuckets(), list, 0);
    PowersOfTwo(b, |list|);
    FoldBlocks(b, 30);
    GatherBlocks(keys, b);
    SortIs(keys, list);
    assert [] + list == list;
  }

  lemma NoBucketsOk(keys: seq<int>)
    ensures BucketsOk(NoBuckets(), keys) && Last(NoBuckets()) == 29 && ListSize == 30
  {
  }

  lemma SortIs(keys: seq<int>, list: seq<nat>)
    requires InRange(list, keys)
    ensures Sort(keys, list) == Gather(keys, Load(keys, NoBuckets(), list), 0, [])
  {
    hide Gather, Load;
  }

  lemma GatherBlocks(keys: seq<int>, b: Buckets)
    requires BucketsOk(b, keys) && AllFlat(keys)
    ensures InRange([], keys) && Gather(keys, b, 0, []) == Fold(b, |b|)
  {
    hide Gather, AllFlat;
    assert Fold(b, 0) == [];
    GatherFlat(keys, b, 0);
  }

  lemma PowersOfTwo(b: Buckets, c: nat)
    requires |b| > 0 && Counted(b, c)
    ensures forall i :: 0 <= i < |b| ==> b[i] == [] || |b[i]| == Pow2(i)
  {
    hide Pow2, Low;
  }

  lemma {:induction false} NothingUnfolded(n: nat)
    requires n <= ListSize
    ensures Unfold(NoBuckets(), n) == []
  {
    if n > 0 { NothingUnfolded(n - 1); }
  }

  lemma {:induction false} SmallBlocks(list: seq<nat>, m: nat, n: nat)
    requires m <= n && |list| < Pow2(m)
    ensures Blocks(list, n) == Blocks(list, m)
    decreases n
  {
    if m < n {
      PowerGrows(m, n - 1);
      SmallBlocks(list, m, n - 1);
    }
  }

  lemma {:induction false} PowerGrows(m: nat, n: nat)
    requires m <= n
    ensures Pow2(m) <= Pow2(n)
    decreases n
  {
    if m < n { PowerGrows(m, n - 1); }
  }

  /** So the sort is not stable: of three cells with one key the first two change places. */
  lemma NotStable(x: nat, y: nat, z: nat, keys: seq<int>)
    requires AllFlat(keys) && InRange([x, y, z], keys)
    ensures Sort(keys, [x, y, z]) == [y, x, z]
  {
    var list := [x, y, z];
    assert Pow2(2) == 4 && Pow2(1) == 2 && Pow2(0) == 1;
    PowerGrows(2, 29);
    hide Sort, Pow2;
    FlatBlocks(keys, list);
    SmallBlocks(list, 2, 30);
    assert list[..2] == [x, y] && list[2..] == [z] && Reversed([x, y]) == [y, x];
    assert [z][..1] == [z] && Reversed([z]) == [z];
    assert Blocks([z], 1) == [z] + Blocks([z][1..], 0);
  }
}
