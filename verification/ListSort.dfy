/** The merge sort on the links themselves. */
module ListSort {
  import opened MergeSort

  const Null: int := -1

  predicate NoRepeats(s: seq<nat>) { forall i, j :: 0 <= i < j < |s| ==> s[i] != s[j] }

  predicate Apart(s: seq<nat>, t: seq<nat>) { forall i, j :: 0 <= i < |s| && 0 <= j < |t| ==> s[i] != t[j] }

  function HeadOf(s: seq<nat>): int { if s == [] then Null else s[0] }

  /** The cells are linked in this order, and the last one has no successor. */
  predicate Linked(next: seq<int>, s: seq<nat>) {
    && NoRepeats(s)
    && (forall i :: 0 <= i < |s| ==> s[i] < |next|)
    && (forall i :: 0 <= i < |s| ==> next[s[i]] == After(s, i))
  }

  /** The cell after position i of the list. */
  function After(s: seq<nat>, i: nat): int {
    if i + 1 < |s| then s[i + 1] else Null
  }

  /** Only cells of these lists have new links. */
  predicate Elsewhere(now: seq<int>, before: seq<int>, s: seq<nat>, t: seq<nat>) {
    |now| == |before| && forall c: nat :: c < |now| && c !in s && c !in t ==> now[c] == before[c]
  }

  lemma LinkedElsewhere(now: seq<int>, before: seq<int>, s: seq<nat>, t: seq<nat>, u: seq<nat>)
    requires Linked(before, u) && Elsewhere(now, before, s, t) && Apart(u, s) && Apart(u, t)
    ensures Linked(now, u)
  {
    forall i | 0 <= i < |u| ensures now[u[i]] == before[u[i]] {
      assert u[i] !in s && u[i] !in t;
    }
  }

  lemma LinkedTail(next: seq<int>, s: seq<nat>)
    requires Linked(next, s) && s != []
    ensures Linked(next, s[1..]) && next[s[0]] == HeadOf(s[1..])
  {
    var t := s[1..];
    assert NoRepeats(t);
    hide NoRepeats;
    assert forall i :: 0 <= i < |t| ==> t[i] == s[i + 1];
    forall i | 0 <= i < |t| ensures next[t[i]] == After(t, i) {
      var j := i + 1;
      assert next[s[j]] == After(s, j);
    }
    assert next[s[0]] == After(s, 0);
  }

  /** The merge so far: `done` is linked up to its last cell, a and b are what remains. */
  predicate Merging(next: seq<int>, done: seq<nat>, a: seq<nat>, b: seq<nat>) {
    && done != [] && NoRepeats(done) && Apart(done, a) && Apart(done, b) && Apart(a, b)
    && Linked(next, a) && Linked(next, b)
    && (forall i :: 0 <= i < |done| ==> done[i] < |next|)
    && (forall i :: 0 <= i < |done| - 1 ==> next[done[i]] == done[i + 1])
  }

  lemma MergeOn(next: seq<int>, done: seq<nat>, a: seq<nat>, b: seq<nat>)
    requires Merging(next, done, a, b) && a != []
    ensures Merging(next[done[|done| - 1] := a[0]], done + [a[0]], a[1..], b)
    ensures next[done[|done| - 1] := a[0]][a[0]] == HeadOf(a[1..])
  {
    var last := done[|done| - 1];
    var now := next[last := a[0]];
    assert a[0] != last;
    LinkedTail(next, a);
    MergeApart(done, a, b);
    hide NoRepeats;
    assert Elsewhere(now, next, [last], []);
    hide Elsewhere, Linked;
    LinkedElsewhere(now, next, [last], [], a[1..]);
    LinkedElsewhere(now, next, [last], [], b);
  }

  lemma MergeApart(done: seq<nat>, a: seq<nat>, b: seq<nat>)
    requires done != [] && NoRepeats(done) && Apart(done, a) && Apart(done, b) && Apart(a, b)
    requires a != [] && NoRepeats(a)
    ensures var last := done[|done| - 1];
      && NoRepeats(done + [a[0]]) && Apart(done + [a[0]], a[1..]) && Apart(done + [a[0]], b) && Apart(a[1..], b)
      && Apart(a[1..], [last]) && Apart(b, [last])
  {
  }

  lemma MergingSwap(next: seq<int>, done: seq<nat>, a: seq<nat>, b: seq<nat>)
    requires Merging(next, done, a, b)
    ensures Merging(next, done, b, a)
  {
  }

  /** One list is used up: the other is hung on. */
  lemma MergeEnd(next: seq<int>, done: seq<nat>, a: seq<nat>)
    requires Merging(next, done, a, [])
    ensures Linked(next[done[|done| - 1] := HeadOf(a)], done + a)
  {
    var last := done[|done| - 1];
    assert forall i :: 0 <= i < |a| ==> a[i] != last;
  }

  predicate Parts(done: seq<nat>, x: seq<nat>, y: seq<nat>) {
    forall i :: 0 <= i < |done| ==> done[i] in x || done[i] in y
  }

  /** Merging x and y has come to this point: u and v are still to be merged. */
  predicate Underway(next: seq<int>, before: seq<int>, keys: seq<int>, x: seq<nat>, y: seq<nat>,
                     done: seq<nat>, u: seq<nat>, v: seq<nat>)
  {
    && InRange(x, keys) && InRange(y, keys) && InRange(u, keys) && InRange(v, keys)
    && Merging(next, done, u, v) && done + Merged(keys, u, v) == Merged(keys, x, y)
    && Parts(done, x, y) && Parts(u, x, y) && Parts(v, x, y) && Elsewhere(next, before, x, y)
  }

  lemma PartsTake(done: seq<nat>, u: seq<nat>, x: seq<nat>, y: seq<nat>)
    requires Parts(done, x, y) && Parts(u, x, y) && u != []
    ensures Parts(done + [u[0]], x, y) && Parts(u[1..], x, y)
  {
  }

  lemma ElsewhereSet(now: seq<int>, before: seq<int>, x: seq<nat>, y: seq<nat>, c: nat, v: int)
    requires Elsewhere(now, before, x, y) && c < |now| && (c in x || c in y)
    ensures Elsewhere(now[c := v], before, x, y)
  {
  }

  lemma MergedTake(keys: seq<int>, done: seq<nat>, u: seq<nat>, v: seq<nat>)
    requires InRange(u, keys) && InRange(v, keys) && u != [] && v != []
    ensures InRange(u[1..], keys) && InRange(v[1..], keys)
    ensures keys[u[0]] <= keys[v[0]] ==>
      done + Merged(keys, u, v) == done + [u[0]] + Merged(keys, u[1..], v)
    ensures keys[u[0]] > keys[v[0]] ==>
      done + Merged(keys, u, v) == done + [v[0]] + Merged(keys, u, v[1..])
  {
    MergedFirst(keys, u, v);
    hide Merged;
    if keys[u[0]] <= keys[v[0]] {
      OneMore(done, u[0], Merged(keys, u[1..], v));
    } else {
      OneMore(done, v[0], Merged(keys, u, v[1..]));
    }
  }

  lemma MergedFirst(keys: seq<int>, u: seq<nat>, v: seq<nat>)
    requires InRange(u, keys) && InRange(v, keys) && u != [] && v != []
    ensures InRange(u[1..], keys) && InRange(v[1..], keys)
    ensures Merged(keys, u, v) ==
      if keys[u[0]] <= keys[v[0]] then [u[0]] + Merged(keys, u[1..], v) else [v[0]] + Merged(keys, u, v[1..])
  {
  }

  lemma OneMore(a: seq<nat>, c: nat, b: seq<nat>)
    ensures a + ([c] + b) == a + [c] + b
  {
  }

  lemma TakeFirst(next: seq<int>, before: seq<int>, keys: seq<int>, x: seq<nat>, y: seq<nat>,
                  done: seq<nat>, u: seq<nat>, v: seq<nat>)
    requires Underway(next, before, keys, x, y, done, u, v)
    requires u != [] && v != [] && keys[u[0]] <= keys[v[0]]
    ensures var now := next[done[|done| - 1] := u[0]];
      Underway(now, before, keys, x, y, done + [u[0]], u[1..], v) && now[u[0]] == HeadOf(u[1..])
  {
    var last := done[|done| - 1];
    assert last in x || last in y;
    MergeOn(next, done, u, v);
    PartsTake(done, u, x, y);
    hide Merging, InRange, Elsewhere, Merged, Parts;
    MergedTake(keys, done, u, v);
    ElsewhereSet(next, before, x, y, last, u[0]);
  }

  lemma TakeSecond(next: seq<int>, before: seq<int>, keys: seq<int>, x: seq<nat>, y: seq<nat>,
                   done: seq<nat>, u: seq<nat>, v: seq<nat>)
    requires Underway(next, before, keys, x, y, done, u, v)
    requires u != [] && v != [] && keys[u[0]] > keys[v[0]]
    ensures var now := next[done[|done| - 1] := v[0]];
      Underway(now, before, keys, x, y, done + [v[0]], u, v[1..]) && now[v[0]] == HeadOf(v[1..])
  {
    var last := done[|done| - 1];
    assert last in x || last in y;
    MergingSwap(next, done, u, v);
    MergeOn(next, done, v, u);
    MergingSwap(next[last := v[0]], done + [v[0]], v[1..], u);
    PartsTake(done, v, x, y);
    hide Merging, InRange, Elsewhere, Merged, Parts;
    MergedTake(keys, done, u, v);
    ElsewhereSet(next, before, x, y, last, v[0]);
  }

  lemma HangOn(next: seq<int>, before: seq<int>, keys: seq<int>, x: seq<nat>, y: seq<nat>,
               done: seq<nat>, u: seq<nat>, v: seq<nat>)
    requires Underway(next, before, keys, x, y, done, u, v) && (u == [] || v == [])
    ensures var now := next[done[|done| - 1] := HeadOf(if u != [] then u else v)];
      Linked(now, Merged(keys, x, y)) && Elsewhere(now, before, x, y)
    ensures done[0] == HeadOf(Merged(keys, x, y))
  {
    if u != [] {
      MergeEnd(next, done, u);
    } else {
      MergingSwap(next, done, u, v);
      MergeEnd(next, done, v);
    }
    hide Linked, Merging;
    assert done[|done| - 1] in x || done[|done| - 1] in y;
  }

  lemma Begin(next: seq<int>, keys: seq<int>, x: seq<nat>, y: seq<nat>)
    requires |next| == |keys| && Linked(next, x) && Linked(next, y) && Apart(x, y) && x != [] && y != []
    requires InRange(x, keys) && InRange(y, keys)
    ensures keys[x[0]] <= keys[y[0]] ==>
      Underway(next, next, keys, x, y, [x[0]], x[1..], y) && next[x[0]] == HeadOf(x[1..])
    ensures keys[x[0]] > keys[y[0]] ==>
      Underway(next, next, keys, x, y, [y[0]], x, y[1..]) && next[y[0]] == HeadOf(y[1..])
  {
    LinkedTail(next, x);
    LinkedTail(next, y);
  }

  method Merge(next: array<int>, keys: seq<int>, a0: int, b0: int, ghost x: seq<nat>, ghost y: seq<nat>)
      returns (head: int)
    requires next.Length == |keys| && Linked(next[..], x) && Linked(next[..], y) && Apart(x, y)
    requires InRange(x, keys) && InRange(y, keys) && a0 == HeadOf(x) && b0 == HeadOf(y)
    modifies next
    ensures Linked(next[..], Merged(keys, x, y)) && head == HeadOf(Merged(keys, x, y))
    ensures Elsewhere(next[..], old(next[..]), x, y)
  {
    if a0 == Null { return b0; }
    if b0 == Null { return a0; }
    Begin(next[..], keys, x, y);
    hide Linked, Apart, Merged, Elsewhere, Merging, Parts;
    var a, b := a0, b0;
    ghost var u, v := x, y;
    var ptr: int;
    if keys[a] <= keys[b] {
      ptr := a;
      a := next[a];
      u := u[1..];
    } else {
      ptr := b;
      b := next[b];
      v := v[1..];
    }
    head := ptr;
    ghost var done: seq<nat> := [ptr];
    while a != Null && b != Null
      invariant Underway(next[..], old(next[..]), keys, x, y, done, u, v)
      invariant done != [] && ptr == done[|done| - 1] && head == done[0] && 0 <= ptr < next.Length
      invariant a == HeadOf(u) && b == HeadOf(v)
      decreases |u| + |v|
    {
      ghost var links := next[..];
      if keys[a] <= keys[b] {
        TakeFirst(links, old(next[..]), keys, x, y, done, u, v);
        next[ptr] := a;
        assert next[..] == links[ptr := a];
        ptr := a;
        a := next[a];
        done, u := done + [u[0]], u[1..];
      } else {
        TakeSecond(links, old(next[..]), keys, x, y, done, u, v);
        next[ptr] := b;
        assert next[..] == links[ptr := b];
        ptr := b;
        b := next[b];
        done, v := done + [v[0]], v[1..];
      }
    }
    ghost var links := next[..];
    HangOn(links, old(next[..]), keys, x, y, done, u, v);
    if a != Null { next[ptr] := a; } else { next[ptr] := b; }
    assert next[..] == links[ptr := HeadOf(if u != [] then u else v)];
  }

  /* ---- Buckets of lists ---- */

  /** Each bucket's list is linked; no cell is in two of them. */
  predicate Held(next: seq<int>, heads: seq<int>, b: Buckets) {
    && |heads| == |b|
    && (forall i :: 0 <= i < |b| ==> Linked(next, b[i]) && heads[i] == HeadOf(b[i]))
    && (forall i, j :: 0 <= i < j < |b| ==> Apart(b[i], b[j]))
  }

  /** The list shares no cell with the buckets from i on. */
  predicate ApartFrom(s: seq<nat>, b: Buckets, i: nat) {
    forall j :: i <= j < |b| ==> Apart(s, b[j])
  }

  lemma ApartMerged(keys: seq<int>, x: seq<nat>, y: seq<nat>, u: seq<nat>)
    requires InRange(x, keys) && InRange(y, keys) && Apart(x, u) && Apart(y, u)
    ensures Apart(Merged(keys, x, y), u) && Apart(u, Merged(keys, x, y))
  {
    MergedCells(keys, x, y);
    var m := Merged(keys, x, y);
    forall i | 0 <= i < |m| ensures m[i] in x || m[i] in y {
      assert m[i] in multiset(m);
    }
  }

  lemma ApartSwap(x: seq<nat>, y: seq<nat>)
    requires Apart(x, y)
    ensures Apart(y, x)
  {
  }

  /** Emptying a bucket whose list was merged with e. */
  lemma HeldMerged(next: seq<int>, before: seq<int>, heads: seq<int>, keys: seq<int>, b: Buckets,
                   e: seq<nat>, i: nat)
    requires Held(before, heads, b) && i < |b| && ApartFrom(e, b, 0)
    requires BucketsOk(b, keys) && InRange(e, keys) && Elsewhere(next, before, e, b[i])
    ensures Held(next, heads[i := Null], b[i := []])
    ensures ApartFrom(Merged(keys, e, b[i]), b[i := []], 0)
  {
    hide Merged, Elsewhere, Linked, Apart;
    EmptyLinked(next);
    forall j | 0 <= j < |b| && j != i
      ensures Linked(next, b[j]) && Apart(Merged(keys, e, b[i]), b[j])
    {
      ApartSwap(e, b[j]);
      if i < j { ApartSwap(b[i], b[j]); } else { ApartSwap(b[j], b[i]); }
      LinkedElsewhere(next, before, e, b[i], b[j]);
      ApartMerged(keys, e, b[i], b[j]);
    }
    forall j ensures 0 <= j < |b| ==> Apart([], b[j]) && Apart(b[j], []) {
      if 0 <= j < |b| { EmptyApart(b[j]); }
    }
    EmptyApart(Merged(keys, e, b[i]));
  }

  lemma EmptyLinked(next: seq<int>)
    ensures Linked(next, [])
  {
  }

  lemma EmptyApart(s: seq<nat>)
    ensures Apart([], s) && Apart(s, [])
  {
  }

  lemma HeldPut(next: seq<int>, heads: seq<int>, b: Buckets, e: seq<nat>, i: nat)
    requires Held(next, heads, b) && i < |b| && ApartFrom(e, b, 0) && Linked(next, e)
    ensures Held(next, heads[i := HeadOf(e)], b[i := e])
  {
    var c := b[i := e];
    forall j, k | 0 <= j < k < |c| ensures Apart(c[j], c[k]) {
      if j == i { assert Apart(e, b[k]); }
      if k == i { ApartSwap(e, b[j]); }
    }
  }

  /** A list apart from e and from all buckets is not touched by merging them. */
  lemma RestApart(next: seq<int>, before: seq<int>, rest: seq<nat>, b: Buckets, e: seq<nat>, i: nat)
    requires i < |b| && Linked(before, rest) && Apart(rest, e) && ApartFrom(rest, b, 0)
    requires Elsewhere(next, before, e, b[i])
    ensures Linked(next, rest) && ApartFrom(rest, b[i := []], 0)
  {
    LinkedElsewhere(next, before, e, b[i], rest);
  }

  /** Puts a list into the buckets, merging on the way. */
  method CarryIn(next: array<int>, keys: seq<int>, heads: array<int>, ep0: int,
                 ghost b: Buckets, ghost e: seq<nat>, ghost rest: seq<nat>)
    requires next.Length == |keys| && heads.Length == ListSize == |b| && BucketsOk(b, keys) && InRange(e, keys)
    requires Held(next[..], heads[..], b) && Linked(next[..], e) && ep0 == HeadOf(e) && ApartFrom(e, b, 0)
    requires Linked(next[..], rest) && Apart(rest, e) && ApartFrom(rest, b, 0) && next != heads
    modifies next, heads
    ensures Held(next[..], heads[..], Carry(keys, b, e, 0))
    ensures Linked(next[..], rest) && ApartFrom(rest, Carry(keys, b, e, 0), 0)
  {
    var ep := ep0;
    ghost var c, f := b, e;
    var i := 0;
    hide Linked, Held, Apart, Merged, ApartFrom;
    while i < ListSize - 1 && heads[i] != Null
      invariant i < ListSize && |c| == ListSize && BucketsOk(c, keys) && InRange(f, keys)
      invariant Held(next[..], heads[..], c) && Linked(next[..], f) && ep == HeadOf(f) && ApartFrom(f, c, 0)
      invariant Linked(next[..], rest) && Apart(rest, f) && ApartFrom(rest, c, 0)
      invariant Carry(keys, c, f, i) == Carry(keys, b, e, 0)
    {
      ghost var links, hs := next[..], heads[..];
      HeldAt(links, hs, c, f, i);
      CarryOn(keys, c, f, rest, i);
      ep := Merge(next, keys, ep, heads[i], f, c[i]);
      HeldMerged(next[..], links, hs, keys, c, f, i);
      RestApart(next[..], links, rest, c, f, i);
      heads[i] := Null;
      assert heads[..] == hs[i := Null];
      c, f := c[i := []], Merged(keys, f, c[i]);
      i := i + 1;
    }
    ghost var hs := heads[..];
    HeldPut(next[..], hs, c, f, i);
    CarryEnd(next[..], hs, keys, c, f, rest, i);
    heads[i] := ep;
    assert heads[..] == hs[i := HeadOf(f)];
  }

  lemma HeldAt(next: seq<int>, heads: seq<int>, b: Buckets, e: seq<nat>, i: nat)
    requires Held(next, heads, b) && ApartFrom(e, b, 0) && i < |b|
    ensures Linked(next, b[i]) && heads[i] == HeadOf(b[i]) && Apart(e, b[i])
  {
  }

  lemma CarryOn(keys: seq<int>, b: Buckets, e: seq<nat>, rest: seq<nat>, i: nat)
    requires BucketsOk(b, keys) && InRange(e, keys) && i < Last(b)
    requires Apart(rest, e) && ApartFrom(rest, b, 0)
    ensures InRange(b[i], keys) && BucketsOk(b[i := []], keys) && Apart(rest, Merged(keys, e, b[i]))
    ensures b[i] != [] ==> Carry(keys, b, e, i) == Carry(keys, b[i := []], Merged(keys, e, b[i]), i + 1)
  {
    ApartSwap(rest, e);
    ApartSwap(rest, b[i]);
    ApartMerged(keys, e, b[i], rest);
  }

  lemma CarryEnd(next: seq<int>, heads: seq<int>, keys: seq<int>, b: Buckets, e: seq<nat>, rest: seq<nat>, i: nat)
    requires Held(next, heads, b) && BucketsOk(b, keys) && InRange(e, keys) && i < |b|
    requires Apart(rest, e) && ApartFrom(rest, b, 0)
    requires i == Last(b) || heads[i] == Null
    ensures Carry(keys, b, e, i) == b[i := e] && ApartFrom(rest, b[i := e], 0)
  {
    assert i < Last(b) ==> b[i] == [] by { assert heads[i] == HeadOf(b[i]); }
  }

  /* ---- The sort ---- */

  /** The first cell, cut off from the rest. */
  lemma CutFirst(next: seq<int>, heads: seq<int>, s: seq<nat>, b: Buckets)
    requires Linked(next, s) && s != [] && Held(next, heads, b) && ApartFrom(s, b, 0)
    ensures var now := next[s[0] := Null];
      && Linked(now, [s[0]]) && Linked(now, s[1..]) && Held(now, heads, b) && HeadOf(s[1..]) == next[s[0]]
    ensures Apart(s[1..], [s[0]]) && ApartFrom([s[0]], b, 0) && ApartFrom(s[1..], b, 0)
  {
    var now := next[s[0] := Null];
    LinkedTail(next, s);
    assert forall i :: 0 <= i < |s[1..]| ==> s[1..][i] != s[0];
    assert Elsewhere(now, next, [s[0]], []);
    LinkedElsewhere(now, next, [s[0]], [], s[1..]);
    forall j | 0 <= j < |b| ensures Apart([s[0]], b[j]) && Linked(now, b[j]) {
      assert Apart(s, b[j]);
      ApartSwap([s[0]], b[j]);
      LinkedElsewhere(now, next, [s[0]], [], b[j]);
    }
  }

  lemma NothingHeld(next: seq<int>, heads: seq<int>, s: seq<nat>)
    requires |heads| == ListSize && forall i :: 0 <= i < ListSize ==> heads[i] == Null
    ensures Held(next, heads, NoBuckets()) && ApartFrom(s, NoBuckets(), 0)
  {
  }

  /** Moves every cell of the list into the buckets. */
  method Distribute(next: array<int>, keys: seq<int>, list0: int, ghost cells: seq<nat>) returns (heads: array<int>)
    requires next.Length == |keys| && InRange(cells, keys)
    requires Linked(next[..], cells) && list0 == HeadOf(cells)
    modifies next
    ensures fresh(heads) && Held(next[..], heads[..], Load(keys, NoBuckets(), cells))
  {
    heads := new int[ListSize](_ => Null);
    ghost var b, rest := NoBuckets(), cells;
    NothingHeld(next[..], heads[..], cells);
    var list := list0;
    hide Linked, Held, Apart, ApartFrom, Carry;
    while list != Null
      invariant heads.Length == ListSize == |b| && BucketsOk(b, keys) && InRange(rest, keys)
      invariant Held(next[..], heads[..], b) && Linked(next[..], rest) && ApartFrom(rest, b, 0)
      invariant list == HeadOf(rest) && Load(keys, b, rest) == Load(keys, NoBuckets(), cells)
      decreases |rest|
    {
      ghost var links := next[..];
      CutFirst(links, heads[..], rest, b);
      var ep := list;
      list := next[list];
      next[ep] := Null;
      assert next[..] == links[rest[0] := Null];
      ghost var first := [rest[0]];
      CarryIn(next, keys, heads, ep, b, first, rest[1..]);
      b, rest := Carry(keys, b, first, 0), rest[1..];
    }
  }

  /** What remains to be gathered: the result so far and the buckets from i on. */
  predicate Gathering(next: seq<int>, heads: seq<int>, b: Buckets, e: seq<nat>, i: nat) {
    && |heads| == |b| && Linked(next, e) && ApartFrom(e, b, i)
    && (forall j :: i <= j < |b| ==> Linked(next, b[j]) && heads[j] == HeadOf(b[j]))
    && (forall j, k :: i <= j < k < |b| ==> Apart(b[j], b[k]))
  }

  lemma GatherOn(next: seq<int>, before: seq<int>, heads: seq<int>, keys: seq<int>, b: Buckets, e: seq<nat>, i: nat)
    requires Gathering(before, heads, b, e, i) && i < |b| && BucketsOk(b, keys) && InRange(e, keys)
    requires Elsewhere(next, before, b[i], e) && Linked(next, Merged(keys, b[i], e))
    ensures Gathering(next, heads, b, Merged(keys, b[i], e), i + 1)
  {
    forall j | i + 1 <= j < |b|
      ensures Linked(next, b[j]) && Apart(Merged(keys, b[i], e), b[j])
    {
      assert Apart(b[i], b[j]) && Apart(e, b[j]);
      ApartSwap(b[i], b[j]);
      ApartSwap(e, b[j]);
      LinkedElsewhere(next, before, b[i], e, b[j]);
      ApartMerged(keys, b[i], e, b[j]);
    }
    hide Merged, Elsewhere, Linked;
  }

  lemma GatherStart(next: seq<int>, heads: seq<int>, b: Buckets)
    requires Held(next, heads, b)
    ensures Gathering(next, heads, b, [], 0)
  {
  }

  lemma GatherAt(next: seq<int>, heads: seq<int>, b: Buckets, e: seq<nat>, i: nat)
    requires Gathering(next, heads, b, e, i) && i < |b|
    ensures Linked(next, b[i]) && Linked(next, e) && Apart(b[i], e) && heads[i] == HeadOf(b[i])
    ensures b[i] == [] ==> Gathering(next, heads, b, e, i + 1)
  {
    ApartSwap(e, b[i]);
  }

  /** Sorts a linked list by relinking its cells: the links then follow the sorted list. */
  method MSort(next: array<int>, keys: seq<int>, list: int, ghost cells: seq<nat>) returns (ep: int)
    requires next.Length == |keys| && InRange(cells, keys)
    requires Linked(next[..], cells) && list == HeadOf(cells)
    modifies next
    ensures Linked(next[..], Sort(keys, cells)) && ep == HeadOf(Sort(keys, cells))
  {
    var heads := Distribute(next, keys, list, cells);
    ghost var b := Load(keys, NoBuckets(), cells);
    ghost var e: seq<nat> := [];
    GatherStart(next[..], heads[..], b);
    hide Linked, Held, Apart, ApartFrom, Gathering, Load;
    ep := Null;
    var i := 0;
    while i < ListSize
      invariant i <= ListSize == heads.Length == |b| && BucketsOk(b, keys) && InRange(e, keys)
      invariant Gathering(next[..], heads[..], b, e, i) && ep == HeadOf(e)
      invariant Gather(keys, b, i, e) == Sort(keys, cells)
    {
      ghost var links := next[..];
      GatherAt(links, heads[..], b, e, i);
      if heads[i] != Null {
        ep := Merge(next, keys, heads[i], ep, b[i], e);
        GatherOn(next[..], links, heads[..], keys, b, e, i);
        e := Merged(keys, b[i], e);
      }
      i := i + 1;
    }
    GatherEnd(next[..], heads[..], b, e);
  }

  lemma GatherEnd(next: seq<int>, heads: seq<int>, b: Buckets, e: seq<nat>)
    requires Gathering(next, heads, b, e, |b|)
    ensures Linked(next, e)
  {
  }
}
