/** Bottom-up merge sort of a linked list. The cells are numbered and `next` links them;
    a cell's key is its rank under the comparison function. */
module MergeSort {
  /* ---- What merging means ---- */

  predicate InRange(s: seq<nat>, keys: seq<int>) {
    forall i :: 0 <= i < |s| ==> s[i] < |keys|
  }

  /** The merge of two lists; on a tie the first one goes first. */
  function Merged(keys: seq<int>, a: seq<nat>, b: seq<nat>): (r: seq<nat>)
    requires InRange(a, keys) && InRange(b, keys)
    ensures InRange(r, keys)
    decreases |a| + |b|
  {
    if a == [] then b
    else if b == [] then a
    else if keys[a[0]] <= keys[b[0]] then [a[0]] + Merged(keys, a[1..], b)
    else [b[0]] + Merged(keys, a, b[1..])
  }

  predicate Sorted(keys: seq<int>, s: seq<nat>)
    requires InRange(s, keys)
  {
    forall i, j :: 0 <= i < j < |s| ==> keys[s[i]] <= keys[s[j]]
  }

  lemma {:induction false} MergedCells(keys: seq<int>, a: seq<nat>, b: seq<nat>)
    requires InRange(a, keys) && InRange(b, keys)
    ensures multiset(Merged(keys, a, b)) == multiset(a) + multiset(b)
    ensures |Merged(keys, a, b)| == |a| + |b|
    decreases |a| + |b|
  {
    if a != [] && b != [] {
      assert a == [a[0]] + a[1..] && b == [b[0]] + b[1..];
      if keys[a[0]] <= keys[b[0]] { MergedCells(keys, a[1..], b); }
      else { MergedCells(keys, a, b[1..]); }
    }
  }

  /** The first cell comes before all others, so adding it keeps the order. */
  lemma SortedCons(keys: seq<int>, x: nat, s: seq<nat>)
    requires x < |keys| && InRange(s, keys) && Sorted(keys, s)
    requires forall y :: y in multiset(s) ==> y < |keys| && keys[x] <= keys[y]
    ensures Sorted(keys, [x] + s)
  {
    assert forall i :: 0 <= i < |s| ==> s[i] in multiset(s);
  }

  lemma {:induction false} MergedSorted(keys: seq<int>, a: seq<nat>, b: seq<nat>)
    requires InRange(a, keys) && InRange(b, keys)
    requires Sorted(keys, a) && Sorted(keys, b)
    ensures Sorted(keys, Merged(keys, a, b))
    decreases |a| + |b|
  {
    if a != [] && b != [] {
      var x := if keys[a[0]] <= keys[b[0]] then a[0] else b[0];
      var (a', b') := if x == a[0] && keys[a[0]] <= keys[b[0]] then (a[1..], b) else (a, b[1..]);
      MergedSorted(keys, a', b');
      MergedCells(keys, a', b');
      forall y | y in multiset(Merged(keys, a', b')) ensures y < |keys| && keys[x] <= keys[y] {
        if y in multiset(a') { assert y in a'; } else { assert y in b'; }
        BeforeAll(keys, a, b, x, y);
      }
      SortedCons(keys, x, Merged(keys, a', b'));
    }
  }

  lemma BeforeAll(keys: seq<int>, a: seq<nat>, b: seq<nat>, x: nat, y: nat)
    requires InRange(a, keys) && InRange(b, keys)
    requires Sorted(keys, a) && Sorted(keys, b) && a != [] && b != []
    requires x == if keys[a[0]] <= keys[b[0]] then a[0] else b[0]
    requires y in a || y in b
    ensures y < |keys| && keys[x] <= keys[y]
  {
    assert keys[x] <= keys[a[0]] && keys[x] <= keys[b[0]];
    if y in a {
      var i :| 0 <= i < |a| && a[i] == y;
      assert i == 0 || keys[a[0]] <= keys[a[i]];
    } else {
      var i :| 0 <= i < |b| && b[i] == y;
      assert i == 0 || keys[b[0]] <= keys[b[i]];
    }
  }

  /* ---- Buckets ---- */

  const ListSize: nat := 30

  type Buckets = seq<seq<nat>>

  function Last(b: Buckets): int { |b| - 1 }

  function Pow2(n: nat): (r: nat)
    ensures r > 0
  {
    if n == 0 then 1 else 2 * Pow2(n - 1)
  }

  predicate BucketsOk(b: Buckets, keys: seq<int>) {
    |b| > 0 && forall i :: 0 <= i < |b| ==> InRange(b[i], keys)
  }

  /** A sorted list goes into bucket i, merged with what is there and carried on while
      the bucket is taken; the last bucket is overwritten. */
  function Carry(keys: seq<int>, b: Buckets, e: seq<nat>, i: nat): (r: Buckets)
    requires BucketsOk(b, keys) && InRange(e, keys) && i <= Last(b)
    ensures BucketsOk(r, keys) && |r| == |b|
    decreases Last(b) - i
  {
    if i < Last(b) && b[i] != [] then Carry(keys, b[i := []], Merged(keys, e, b[i]), i + 1)
    else b[i := e]
  }

  function Load(keys: seq<int>, b: Buckets, list: seq<nat>): (r: Buckets)
    requires BucketsOk(b, keys) && InRange(list, keys)
    ensures BucketsOk(r, keys) && |r| == |b|
    decreases |list|
  {
    if list == [] then b else Load(keys, Carry(keys, b, [list[0]], 0), list[1..])
  }

  function Gather(keys: seq<int>, b: Buckets, i: nat, e: seq<nat>): (r: seq<nat>)
    requires BucketsOk(b, keys) && InRange(e, keys) && i <= |b|
    ensures InRange(r, keys)
    decreases |b| - i
  {
    if i == |b| then e
    else Gather(keys, b, i + 1, if b[i] != [] then Merged(keys, b[i], e) else e)
  }

  function NoBuckets(): (b: Buckets)
    ensures |b| == ListSize && forall i :: 0 <= i < ListSize ==> b[i] == []
  {
    seq(ListSize, i => [])
  }

  function Sort(keys: seq<int>, list: seq<nat>): (r: seq<nat>)
    requires InRange(list, keys)
    ensures InRange(r, keys)
  {
    Gather(keys, Load(keys, NoBuckets(), list), 0, [])
  }

  /* ---- Order ---- */

  ghost predicate AllSorted(keys: seq<int>, b: Buckets)
    requires BucketsOk(b, keys)
  {
    forall i :: 0 <= i < |b| ==> Sorted(keys, b[i])
  }

  lemma {:induction false} CarrySorted(keys: seq<int>, b: Buckets, e: seq<nat>, i: nat)
    requires BucketsOk(b, keys) && InRange(e, keys) && i <= Last(b)
    requires AllSorted(keys, b) && Sorted(keys, e)
    ensures AllSorted(keys, Carry(keys, b, e, i))
    decreases Last(b) - i
  {
    if i < Last(b) && b[i] != [] {
      MergedSorted(keys, e, b[i]);
      CarrySorted(keys, b[i := []], Merged(keys, e, b[i]), i + 1);
    }
  }

  lemma {:induction false} LoadSorted(keys: seq<int>, b: Buckets, list: seq<nat>)
    requires BucketsOk(b, keys) && InRange(list, keys) && AllSorted(keys, b)
    ensures AllSorted(keys, Load(keys, b, list))
    decreases |list|
  {
    if list != [] {
      CarrySorted(keys, b, [list[0]], 0);
      LoadSorted(keys, Carry(keys, b, [list[0]], 0), list[1..]);
    }
  }

  lemma {:induction false} GatherSorted(keys: seq<int>, b: Buckets, i: nat, e: seq<nat>)
    requires BucketsOk(b, keys) && InRange(e, keys) && i <= |b|
    requires AllSorted(keys, b) && Sorted(keys, e)
    ensures Sorted(keys, Gather(keys, b, i, e))
    decreases |b| - i
  {
    if i < |b| {
      MergedSorted(keys, b[i], e);
      GatherSorted(keys, b, i + 1, if b[i] != [] then Merged(keys, b[i], e) else e);
    }
  }

  /** The result is in order for a list of any length. */
  lemma SortSorted(keys: seq<int>, list: seq<nat>)
    requires InRange(list, keys)
    ensures Sorted(keys, Sort(keys, list))
  {
    LoadSorted(keys, NoBuckets(), list);
    GatherSorted(keys, Load(keys, NoBuckets(), list), 0, []);
  }

  /* ---- The binary counter ---- */

  /** Below the last, a bucket is empty or holds exactly 2^i cells. */
  predicate Binary(b: Buckets)
    requires |b| > 0
  {
    forall i :: 0 <= i < Last(b) ==> b[i] == [] || |b[i]| == Pow2(i)
  }

  /** The cells in the buckets from i up to the last one, that one left out. */
  function Low(b: Buckets, i: nat): nat
    requires |b| > 0 && i <= Last(b)
    decreases Last(b) - i
  {
    if i == Last(b) then 0 else |b[i]| + Low(b, i + 1)
  }

  predicate FullFrom(b: Buckets, i: nat)
    requires |b| > 0 && i <= Last(b)
  {
    forall j :: i <= j < Last(b) ==> b[j] != []
  }

  lemma {:induction false} LowBound(b: Buckets, i: nat)
    requires |b| > 0 && i <= Last(b) && Binary(b)
    ensures Low(b, i) <= Pow2(Last(b)) - Pow2(i)
    ensures Low(b, i) == Pow2(Last(b)) - Pow2(i) <==> FullFrom(b, i)
    decreases Last(b) - i
  {
    if i < Last(b) {
      LowBound(b, i + 1);
      assert Pow2(i + 1) == 2 * Pow2(i);
    }
  }

  lemma {:induction false} LowSame(b: Buckets, c: Buckets, i: nat)
    requires |b| == |c| && |b| > 0 && i <= Last(b) && forall j :: i <= j < Last(b) ==> b[j] == c[j]
    ensures Low(b, i) == Low(c, i)
    decreases Last(b) - i
  {
    if i < Last(b) { LowSame(b, c, i + 1); }
  }

  /** Carrying a list of 2^i cells into bucket i counts up by 2^i; when all buckets from
      there on are full they empty, and the last bucket is written. */
  lemma {:induction false} CarryCount(keys: seq<int>, b: Buckets, e: seq<nat>, i: nat)
    requires BucketsOk(b, keys) && InRange(e, keys) && i <= Last(b) && Binary(b) && |e| == Pow2(i)
    ensures var r := Carry(keys, b, e, i);
      && Binary(r) && (forall j :: 0 <= j < i ==> r[j] == b[j])
      && (FullFrom(b, i) ==> |r[Last(b)]| == Pow2(Last(b)) && Low(r, i) == 0)
      && (!FullFrom(b, i) ==> r[Last(b)] == b[Last(b)] && Low(r, i) == Low(b, i) + Pow2(i))
    decreases Last(b) - i
  {
    if i < Last(b) && b[i] != [] {
      MergedCells(keys, e, b[i]);
      EmptiedCount(b, i);
      hide Low, FullFrom, Binary, Merged, Pow2;
      CarryCount(keys, b[i := []], Merged(keys, e, b[i]), i + 1);
    } else if i < Last(b) {
      LowSame(b, b[i := e], i + 1);
    }
  }

  /** A full bucket that has been emptied. */
  lemma EmptiedCount(b: Buckets, i: nat)
    requires |b| > 0 && i < Last(b) && Binary(b) && b[i] != []
    ensures var c := b[i := []];
      && Binary(c) && |b[i]| == Pow2(i) && Pow2(i + 1) == 2 * Pow2(i)
      && Low(c, i + 1) == Low(b, i + 1) && Low(b, i) == Pow2(i) + Low(b, i + 1)
      && (FullFrom(b, i) <==> FullFrom(c, i + 1))
    ensures forall r: Buckets :: |r| == |b| && r[i] == [] ==> Low(r, i) == Low(r, i + 1)
  {
    var c := b[i := []];
    LowSame(b, c, i + 1);
    hide Low;
    if FullFrom(c, i + 1) {
      forall j | i <= j < Last(b) ensures b[j] != [] {
        assert j > i ==> c[j] == b[j];
      }
    }
    if FullFrom(b, i) {
      forall j | i + 1 <= j < Last(c) ensures c[j] != [] {
        assert c[j] == b[j];
      }
    }
  }

  /** The state after c cells: the last bucket has been reached or not, and the others
      count the rest. */
  predicate Counted(b: Buckets, c: nat)
    requires |b| > 0
  {
    && Binary(b) && Low(b, 0) == c % Pow2(Last(b))
    && |b[Last(b)]| == if c < Pow2(Last(b)) then 0 else Pow2(Last(b))
  }

  lemma NextCount(c: nat, n: nat)
    requires n > 0
    ensures (c + 1) % n == if c % n == n - 1 then 0 else c % n + 1
    ensures c % n == n - 1 && c + 1 < 2 * n ==> c == n - 1
    ensures c % n != n - 1 && c < n ==> c + 1 < n
  {
    var q, r := c / n, c % n;
    assert c == n * q + r;
    if r == n - 1 {
      assert c + 1 == n * (q + 1);
      ModIs(c + 1, n, q + 1, 0);
      if q >= 1 { assert n * q >= n; }
    } else {
      ModIs(c + 1, n, q, r + 1);
    }
  }

  lemma ModIs(x: nat, n: nat, q: nat, r: nat)
    requires n > 0 && x == n * q + r && r < n
    ensures x % n == r
  {
    var d := x / n - q;
    assert x == n * (x / n) + x % n;
    assert n * d == r - x % n;
    if d >= 1 { AtLeast(n, d); assert false; }
    if d <= -1 { AtLeast(n, -d); assert false; }
  }

  lemma AtLeast(n: int, d: int)
    requires n > 0 && d >= 1
    ensures n * d >= n && n * -d <= -n
  {
  }

  lemma CarryOne(keys: seq<int>, b: Buckets, x: nat, c: nat)
    requires BucketsOk(b, keys) && x < |keys| && Counted(b, c)
    ensures Counted(Carry(keys, b, [x], 0), c + 1)
    ensures c + 1 < 2 * Pow2(Last(b)) && FullFrom(b, 0) ==> b[Last(b)] == []
  {
    LowBound(b, 0);
    CarryCount(keys, b, [x], 0);
    NextCount(c, Pow2(Last(b)));
  }

  /* ---- No cell is lost ---- */

  /** All cells in the buckets from i on. */
  function Cells(b: Buckets, i: nat): multiset<nat>
    requires |b| > 0 && i <= |b|
    decreases |b| - i
  {
    if i == |b| then multiset{} else multiset(b[i]) + Cells(b, i + 1)
  }

  lemma {:induction false} CellsUpdate(b: Buckets, i: nat, j: nat, e: seq<nat>)
    requires |b| > 0 && i <= |b| && j < |b|
    ensures i <= j ==> Cells(b[j := e], i) + multiset(b[j]) == Cells(b, i) + multiset(e)
    ensures i > j ==> Cells(b[j := e], i) == Cells(b, i)
    decreases |b| - i
  {
    if i < |b| {
      CellsUpdate(b, i + 1, j, e);
      var x, y, u := multiset(b[i]), Cells(b, i + 1), Cells(b[j := e], i + 1);
      if i == j {
        assert (multiset(e) + y) + x == (x + y) + multiset(e);
      } else if i < j {
        assert (x + u) + multiset(b[j]) == x + (u + multiset(b[j]));
        assert (x + y) + multiset(e) == x + (y + multiset(e));
      }
    }
  }

  lemma {:induction false} CarryCells(keys: seq<int>, b: Buckets, e: seq<nat>, i: nat)
    requires BucketsOk(b, keys) && InRange(e, keys) && i <= Last(b)
    requires FullFrom(b, i) ==> b[Last(b)] == []
    ensures Cells(Carry(keys, b, e, i), 0) == Cells(b, 0) + multiset(e)
    decreases Last(b) - i
  {
    if i < Last(b) && b[i] != [] {
      var c := b[i := []];
      MergedCells(keys, e, b[i]);
      CellsUpdate(b, 0, i, []);
      StillFull(b, i);
      hide Cells, Merged, FullFrom;
      CarryCells(keys, c, Merged(keys, e, b[i]), i + 1);
      Regroup(Cells(c, 0), multiset(e), multiset(b[i]), Cells(b, 0));
    } else {
      CellsUpdate(b, 0, i, e);
    }
  }

  lemma StillFull(b: Buckets, i: nat)
    requires |b| > 0 && i < Last(b) && b[i] != []
    ensures FullFrom(b[i := []], i + 1) ==> FullFrom(b, i)
  {
    var c := b[i := []];
    if FullFrom(c, i + 1) {
      forall j | i <= j < Last(b) ensures b[j] != [] {
        assert j > i ==> c[j] == b[j];
      }
    }
  }

  lemma Regroup(x: multiset<nat>, e: multiset<nat>, y: multiset<nat>, z: multiset<nat>)
    requires x + y == z
    ensures x + (e + y) == z + e
  {
    assert x + (e + y) == (x + y) + e;
  }

  lemma {:induction false} LoadCells(keys: seq<int>, b: Buckets, list: seq<nat>, c: nat)
    requires BucketsOk(b, keys) && InRange(list, keys) && Counted(b, c)
    ensures Counted(Load(keys, b, list), c + |list|)
    ensures c + |list| < 2 * Pow2(Last(b)) ==> Cells(Load(keys, b, list), 0) == Cells(b, 0) + multiset(list)
    decreases |list|
  {
    if list != [] {
      CarryOne(keys, b, list[0], c);
      assert list == [list[0]] + list[1..];
      if c + |list| < 2 * Pow2(Last(b)) { CarryCells(keys, b, [list[0]], 0); }
      LoadCells(keys, Carry(keys, b, [list[0]], 0), list[1..], c + 1);
    }
  }

  lemma {:induction false} GatherCells(keys: seq<int>, b: Buckets, i: nat, e: seq<nat>)
    requires BucketsOk(b, keys) && InRange(e, keys) && i <= |b|
    ensures multiset(Gather(keys, b, i, e)) == multiset(e) + Cells(b, i)
    decreases |b| - i
  {
    if i < |b| {
      MergedCells(keys, b[i], e);
      GatherCells(keys, b, i + 1, if b[i] != [] then Merged(keys, b[i], e) else e);
    }
  }

  lemma {:induction false} CellsCount(b: Buckets, i: nat)
    requires |b| > 0 && i <= Last(b)
    ensures |Cells(b, i)| == Low(b, i) + |b[Last(b)]|
    decreases Last(b) - i
  {
    if i < Last(b) { CellsCount(b, i + 1); } else { assert Cells(b, |b|) == multiset{}; }
  }

  lemma NothingLoaded()
    ensures Counted(NoBuckets(), 0) && Cells(NoBuckets(), 0) == multiset{}
  {
    LowBound(NoBuckets(), 0);
    EmptyLow(0);
    EmptyCells(0);
  }

  lemma {:induction false} EmptyLow(i: nat)
    requires i <= Last(NoBuckets())
    ensures Low(NoBuckets(), i) == 0
    decreases |NoBuckets()| - i
  {
    if i < Last(NoBuckets()) { EmptyLow(i + 1); }
  }

  lemma {:induction false} EmptyCells(i: nat)
    requires i <= ListSize
    ensures Cells(NoBuckets(), i) == multiset{}
    decreases ListSize - i
  {
    if i < ListSize { EmptyCells(i + 1); }
  }

  lemma SortKeeps(keys: seq<int>, list: seq<nat>)
    requires InRange(list, keys) && |list| < 2 * Pow2(29)
    ensures multiset(Sort(keys, list)) == multiset(list)
  {
    hide Counted, Cells, Gather, Load, Pow2;
    NothingLoaded();
    LoadCells(keys, NoBuckets(), list, 0);
    GatherCells(keys, Load(keys, NoBuckets(), list), 0, []);
  }

  lemma SortCount(keys: seq<int>, list: seq<nat>)
    requires InRange(list, keys)
    ensures |Sort(keys, list)| == |list| % Pow2(29) + if |list| < Pow2(29) then 0 else Pow2(29)
  {
    hide Cells, Gather, Load, Pow2, Low, Binary;
    var b := Load(keys, NoBuckets(), list);
    NothingLoaded();
    LoadCells(keys, NoBuckets(), list, 0);
    GatherCells(keys, b, 0, []);
    CellsCount(b, 0);
    assert |multiset(Sort(keys, list))| == |Sort(keys, list)|;
  }

  /** The result is a permutation of the list exactly if the list is shorter than 2^30.
      A longer one loses a multiple of 2^29 cells. */
  lemma SortPermutes(keys: seq<int>, list: seq<nat>)
    requires InRange(list, keys)
    ensures multiset(Sort(keys, list)) == multiset(list) <==> |list| < Pow2(30)
    ensures |Sort(keys, list)| == |list| % Pow2(29) + if |list| < Pow2(29) then 0 else Pow2(29)
  {
    assert Pow2(30) == 2 * Pow2(29);
    hide Pow2, Sort;
    SortCount(keys, list);
    if |list| < Pow2(30) {
      SortKeeps(keys, list);
    } else {
      Fewer(|list|, Pow2(29));
      assert |multiset(Sort(keys, list))| == |Sort(keys, list)| && |multiset(list)| == |list|;
    }
  }

  lemma Fewer(x: nat, n: nat)
    requires n > 0 && x >= 2 * n
    ensures x % n + n < x
  {
  }
}
