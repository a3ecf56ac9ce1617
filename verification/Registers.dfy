/** The registers of a scope: a count and an ordered list of registers free for reuse. */
module Registers {
  /** The free list and the number of registers handed out so far. */
  datatype Pool = Pool(free: seq<nat>, count: nat)
  {
    predicate Valid() {
      && (forall i, j :: 0 <= i < j < |free| ==> free[i] < free[j])
      && (forall i :: 0 <= i < |free| ==> free[i] < count)
    }

    /** Handed out and not returned. */
    predicate Used(r: nat) { r < count && r !in free }
  }

  /* ---- One register ---- */

  function Get(p: Pool): (nat, Pool) {
    if p.free != [] then (p.free[|p.free| - 1], p.(free := p.free[..|p.free| - 1]))
    else (p.count, p.(count := p.count + 1))
  }

  /** Ordered insertion from the right. */
  function Inserted(s: seq<nat>, x: nat): seq<nat> {
    if s == [] || s[|s| - 1] <= x then s + [x]
    else Inserted(s[..|s| - 1], x) + [s[|s| - 1]]
  }

  function Return(p: Pool, r: nat): Pool {
    if r in p.free then p else p.(free := Inserted(p.free, r))
  }

  lemma {:induction false} InsertedMembers(s: seq<nat>, x: nat, y: nat)
    ensures y in Inserted(s, x) <==> y in s || y == x
  {
    if s != [] && s[|s| - 1] > x {
      InsertedMembers(s[..|s| - 1], x, y);
      assert s == s[..|s| - 1] + [s[|s| - 1]];
    }
  }

  lemma {:induction false} InsertedAscends(s: seq<nat>, x: nat)
    requires forall i, j :: 0 <= i < j < |s| ==> s[i] < s[j]
    requires x !in s
    ensures forall i, j :: 0 <= i < j < |Inserted(s, x)| ==> Inserted(s, x)[i] < Inserted(s, x)[j]
  {
    if s != [] && s[|s| - 1] > x {
      var front := s[..|s| - 1];
      InsertedAscends(front, x);
      forall i | 0 <= i < |Inserted(front, x)| ensures Inserted(front, x)[i] < s[|s| - 1] {
        InsertedMembers(front, x, Inserted(front, x)[i]);
      }
    }
  }

  /** Inserting from the right has come to position i. */
  predicate InsertingAt(s: seq<nat>, x: nat, i: nat)
    requires i <= |s|
  {
    Inserted(s, x) == Inserted(s[..i], x) + s[i..]
  }

  lemma StartInsert(s: seq<nat>, x: nat)
    ensures InsertingAt(s, x, |s|)
  {
    assert s[..|s|] == s && Inserted(s, x) + s[|s|..] == Inserted(s, x);
  }

  lemma NextInsert(s: seq<nat>, x: nat, i: nat)
    requires 0 < i <= |s| && x < s[i - 1] && InsertingAt(s, x, i)
    ensures InsertingAt(s, x, i - 1)
  {
    assert s[..i][..i - 1] == s[..i - 1] && s[i - 1..] == [s[i - 1]] + s[i..];
  }

  lemma EndInsert(s: seq<nat>, x: nat, i: nat)
    requires i <= |s| && InsertingAt(s, x, i) && (i > 0 ==> s[i - 1] <= x)
    ensures Inserted(s, x) == s[..i] + [x] + s[i..]
  {
  }

  /** A register handed out was unused, and is the only one whose use changes. It is the
      highest of the free ones; a new one is taken only when none is free. */
  lemma GetUses(p: Pool)
    requires p.Valid()
    ensures var (r, q) := Get(p);
      && q.Valid() && !p.Used(r) && (forall x: nat :: q.Used(x) <==> p.Used(x) || x == r)
      && (if forall x: nat :: x < p.count ==> p.Used(x) then r == p.count && q.count == p.count + 1
          else q.count == p.count && r < p.count && forall x: nat :: x < p.count && !p.Used(x) ==> x <= r)
  {
    var (r, q) := Get(p);
    if p.free != [] {
      assert p.free == q.free + [r];
    }
  }

  /** A returned register is free again, and nothing else changes; returning it twice
      does nothing. */
  lemma ReturnFrees(p: Pool, r: nat)
    requires p.Valid() && r < p.count
    ensures var q := Return(p, r);
      q.Valid() && q.count == p.count && Return(q, r) == q
      && forall x: nat :: q.Used(x) <==> p.Used(x) && x != r
  {
    var q := Return(p, r);
    if r !in p.free {
      InsertedAscends(p.free, r);
    }
    forall x: nat ensures x in Inserted(p.free, r) <==> x in p.free || x == r {
      InsertedMembers(p.free, r, x);
    }
    assert forall i :: 0 <= i < |q.free| ==> q.free[i] in q.free;
  }

  /* ---- A row of registers ---- */

  /** How many registers at the end of the list follow each other, up to `most`. */
  function TailRun(s: seq<nat>, most: nat): (n: nat)
    requires s != [] && most >= 1
    ensures 1 <= n <= |s| && n <= most
  {
    if most > 1 && |s| > 1 && s[|s| - 2] + 1 == s[|s| - 1] then 1 + TailRun(s[..|s| - 1], most - 1)
    else 1
  }

  /** The registers at the end of the list that a request for n takes into account: the
      test for enough registers comes only after a second one is found. */
  function Candidates(s: seq<nat>, n: nat): nat
    requires s != [] && n >= 1
  {
    TailRun(s, if n == 1 then 2 else n)
  }

  /** n registers in a row: from the end of the list if it holds enough, from there and
      new ones if the list ends with the newest register, or all new. */
  function GetRow(p: Pool, n: nat): (r: (int, Pool))
    requires n >= 1
  {
    if p.free == [] then (p.count, p.(count := p.count + n))
    else
      var seen := Candidates(p.free, n);
      var last := p.free[|p.free| - 1];
      if seen >= 2 && seen >= n then (last - seen + 1, p.(free := p.free[..|p.free| - n]))
      else if last + 1 == p.count then
        (last - seen + 1, Pool(p.free[..|p.free| - seen], p.count + n - seen))
      else (p.count, p.(count := p.count + n))
  }

  /** The last n elements follow each other. */
  predicate EndsInRow(s: seq<nat>, n: nat)
    requires 1 <= n <= |s|
  {
    forall i :: |s| - n <= i < |s| ==> s[i] == s[|s| - 1] + i + 1 - |s|
  }

  /** The run ends at the limit, at the start of the list or at a gap. */
  predicate RunStops(s: seq<nat>, n: nat, most: nat)
    requires 1 <= n <= |s|
  {
    n == most || n == |s| || s[|s| - n - 1] + 1 != s[|s| - n]
  }

  lemma {:induction false} TailRunIs(s: seq<nat>, most: nat)
    requires s != [] && most >= 1
    ensures EndsInRow(s, TailRun(s, most)) && RunStops(s, TailRun(s, most), most)
  {
    if most > 1 && |s| > 1 && s[|s| - 2] + 1 == s[|s| - 1] {
      TailRunIs(s[..|s| - 1], most - 1);
    }
  }

  lemma TailRunOnly(s: seq<nat>, most: nat, n: nat)
    requires s != [] && 1 <= n <= most && n <= |s|
    requires EndsInRow(s, n) && RunStops(s, n, most)
    ensures TailRun(s, most) == n
  {
    TailRunIs(s, most);
    var t := TailRun(s, most);
    if t < n { NoGap(s, n, t); assert false; }
    if n < t { NoGap(s, t, n); assert false; }
  }

  lemma NoGap(s: seq<nat>, n: int, k: int)
    requires 1 <= k < n <= |s| && EndsInRow(s, n)
    ensures s[|s| - k - 1] + 1 == s[|s| - k]
  {
  }

  /** The three ways a request ends, by the run found at the end of the list. */
  lemma GetRowIs(p: Pool, n: nat, run: nat)
    requires p.free != [] && 1 <= n && 1 <= run <= |p.free|
    requires var most := if n == 1 then 2 else n;
      run <= most && EndsInRow(p.free, run) && RunStops(p.free, run, most)
    ensures var (first, q) := GetRow(p, n);
      var last := p.free[|p.free| - 1];
      if run >= 2 && run >= n then first == last - run + 1 && q == Pool(p.free[..|p.free| - n], p.count)
      else if last + 1 == p.count then
        first == last - run + 1 && q == Pool(p.free[..|p.free| - run], p.count + n - run)
      else first == p.count && q == Pool(p.free, p.count + n)
  {
    TailRunOnly(p.free, if n == 1 then 2 else n, run);
  }

  lemma GetRowNew(p: Pool, n: nat)
    requires p.free == [] && n >= 1
    ensures GetRow(p, n) == (p.count, Pool(p.free, p.count + n))
  {
  }

  predicate InRow(x: nat, first: int, n: nat) { first <= x < first + n }

  /** The last k registers of the list, and n - k new ones: unused before, the only
      ones used more afterwards. */
  lemma TakeRow(p: Pool, k: nat, n: nat, first: int)
    requires p.Valid() && k <= |p.free| && k <= n
    requires k > 0 ==> EndsInRow(p.free, k) && first == p.free[|p.free| - 1] - k + 1
    requires k < n ==> first + k == p.count
    ensures var q := Pool(p.free[..|p.free| - k], p.count + n - k);
      && q.Valid() && (n > 0 ==> first >= 0)
      && (forall x: nat :: InRow(x, first, n) ==> !p.Used(x))
      && (forall x: nat :: q.Used(x) <==> p.Used(x) || InRow(x, first, n))
  {
    var m := |p.free| - k;
    assert p.free == p.free[..m] + p.free[m..];
    forall x: nat | first <= x < first + k ensures x in p.free {
      assert p.free[m + x - first] == x;
    }
    assert k > 0 ==> p.free[m] == first;
    forall x | x in p.free[..m] ensures !InRow(x, first, n) {
    }
    forall x | x in p.free[m..] ensures InRow(x, first, n) {
    }
  }

  /** The row is made of the last k registers of the list and n - k new ones: all of
      them from the list if it ends in such a row, or else as many as end it, up to the
      newest register, and new ones behind, or else all new. */
  lemma GetRowSource(p: Pool, n: nat) returns (k: nat)
    requires p.Valid() && n >= 2
    ensures var (first, q) := GetRow(p, n);
      && k <= |p.free| && k <= n
      && q == Pool(p.free[..|p.free| - k], p.count + n - k)
      && (k > 0 ==> EndsInRow(p.free, k) && first == p.free[|p.free| - 1] - k + 1)
      && (k < n ==> first + k == p.count)
      && (if n <= |p.free| && EndsInRow(p.free, n) then k == n
          else if p.free != [] && p.free[|p.free| - 1] + 1 == p.count then k > 0 && RunStops(p.free, k, n)
          else k == 0)
  {
    var (first, q) := GetRow(p, n);
    k := if q.count == p.count then n else n - (q.count - p.count);
    if p.free != [] { TailRunIs(p.free, n); }
    assert p.free[..|p.free|] == p.free;
  }

  /** For two or more registers: all n were unused, they are exactly the registers
      whose use changes, and the list stays ordered. */
  lemma GetRowUses(p: Pool, n: nat)
    requires p.Valid() && n >= 2
    ensures var (first, q) := GetRow(p, n);
      && q.Valid() && first >= 0
      && (forall x: nat :: InRow(x, first, n) ==> !p.Used(x))
      && (forall x: nat :: q.Used(x) <==> p.Used(x) || InRow(x, first, n))
  {
    var k := GetRowSource(p, n);
    hide *;
    TakeRow(p, k, n, GetRow(p, n).0);
  }

  lemma GetRowValid(p: Pool, n: nat)
    requires p.Valid() && n >= 2
    ensures GetRow(p, n).1.Valid()
  {
    hide GetRow;
    GetRowUses(p, n);
  }

  /** The last two registers of the list follow each other. */
  predicate LastTwo(s: seq<nat>) { |s| >= 2 && s[|s| - 2] + 1 == s[|s| - 1] }

  /** A request for one register, as made for a call without arguments, hands out a
      register that stays on the free list exactly if the last two registers of the
      list follow each other: it takes the last one off and hands out the one before.
      Otherwise it behaves like a row of one: the last register of the list, if it is the
      newest, or else a new one; unused before, and the only one whose use changes. */
  lemma GetOneExact(p: Pool)
    requires p.Valid()
    ensures var (first, q) := GetRow(p, 1);
      && (first in q.free <==> LastTwo(p.free))
      && (LastTwo(p.free) ==> first == p.free[|p.free| - 2] && q == Pool(p.free[..|p.free| - 1], p.count))
      && (!LastTwo(p.free) ==>
            && q.Valid() && first >= 0 && !p.Used(first)
            && (forall x: nat :: q.Used(x) <==> p.Used(x) || x == first)
            && (if p.free != [] && p.free[|p.free| - 1] + 1 == p.count
                then first == p.free[|p.free| - 1] && q == Pool(p.free[..|p.free| - 1], p.count)
                else first == p.count && q == Pool(p.free, p.count + 1)))
  {
    OneSource(p);
    if !LastTwo(p.free) {
      var (first, q) := GetRow(p, 1);
      hide GetRow, Pool.Used;
      OneUses(p);
      UnusedNotFree(p, q, first);
    } else {
      assert p.free[..|p.free| - 1][|p.free| - 2] == p.free[|p.free| - 2];
    }
  }

  lemma OneUses(p: Pool)
    requires p.Valid() && !LastTwo(p.free)
    ensures var (first, q) := GetRow(p, 1);
      && q.Valid() && first >= 0 && !p.Used(first)
      && (forall x: nat :: q.Used(x) <==> p.Used(x) || x == first)
  {
    OneSource(p);
    var (first, q) := GetRow(p, 1);
    var k := if p.free != [] && p.free[|p.free| - 1] + 1 == p.count then 1 else 0;
    assert p.free[..|p.free|] == p.free;
    hide GetRow, Pool.Used;
    TakeRow(p, k, 1, first);
    assert forall x: nat :: InRow(x, first, 1) <==> x == first;
  }

  lemma UnusedNotFree(p: Pool, q: Pool, x: nat)
    requires q.Valid() && q.Used(x)
    ensures x !in q.free
  {
  }

  lemma OneSource(p: Pool)
    requires p.Valid()
    ensures var (first, q) := GetRow(p, 1);
      if LastTwo(p.free) then first == p.free[|p.free| - 2] && q == Pool(p.free[..|p.free| - 1], p.count)
      else if p.free != [] && p.free[|p.free| - 1] + 1 == p.count
      then first == p.free[|p.free| - 1] && q == Pool(p.free[..|p.free| - 1], p.count)
      else first == p.count && q == Pool(p.free, p.count + 1)
  {
    if LastTwo(p.free) {
      assert TailRun(p.free[..|p.free| - 1], 1) == 1;
    } else if p.free != [] {
      assert TailRun(p.free, 2) == 1;
    }
  }

  /* ---- The scope ---- */

  const InitialSize: nat := 5

  /** Exchanges the new last element leftwards to its place. */
  method Settle(a: array<int>, last: nat, ghost s: seq<nat>, x: nat)
    requires last == |s| < a.Length && a[last] == x
    requires forall k :: 0 <= k < |s| ==> a[k] == s[k]
    modifies a
    ensures |Inserted(s, x)| == |s| + 1
    ensures forall k :: 0 <= k <= |s| ==> a[k] == Inserted(s, x)[k]
  {
    var i := last;
    StartInsert(s, x);
    hide Inserted, InsertingAt;
    while i > 0 && a[i] < a[i - 1]
      invariant 0 <= i <= |s|
      invariant forall k :: 0 <= k < i ==> a[k] == s[k]
      invariant a[i] == x
      invariant forall k :: i < k <= |s| ==> a[k] == s[k - 1]
      invariant InsertingAt(s, x, i)
    {
      NextInsert(s, x, i);
      var temp := a[i];
      a[i] := a[i - 1];
      i := i - 1;
      a[i] := temp;
    }
    EndInsert(s, x, i);
  }

  class Scope {
    var pointers: array<int>
    var size: nat
    var count: nat
    ghost var list: seq<nat> // the elements in use

    ghost predicate Held()
      reads this, pointers
    {
      && size == |list| < pointers.Length
      && forall i :: 0 <= i < size ==> pointers[i] == list[i]
    }

    ghost predicate Valid()
      reads this, pointers
    {
      Held() && Value().Valid()
    }

    ghost function Value(): Pool
      reads this
    {
      Pool(list, count)
    }

    /** Register 0 is always a temporary, so counting starts at 1. */
    constructor ()
      ensures Valid() && fresh(pointers) && Value() == Pool([], 1)
    {
      size, count, list := 0, 1, [];
      pointers := new int[InitialSize](_ => 0);
    }

    /** Makes room for one more element and the null behind it. */
    method Grow()
      requires Held()
      modifies this`pointers
      ensures Held() && size + 2 <= pointers.Length
      ensures pointers == old(pointers) || fresh(pointers)
    {
      if size + 2 > pointers.Length {
        var wider := new int[2 * pointers.Length](_ => 0);
        var k := 0;
        while k < size
          invariant k <= size < wider.Length && forall i :: 0 <= i < k ==> wider[i] == list[i]
          modifies wider
        {
          wider[k] := pointers[k];
          k := k + 1;
        }
        pointers := wider;
      }
    }

    /** Ordered insertion: append, then exchange leftwards. */
    method Add(x: nat)
      requires Held()
      modifies this`pointers, this`size, this`list, pointers
      ensures Held() && list == Inserted(old(list), x)
      ensures pointers == old(pointers) || fresh(pointers)
    {
      Grow();
      Sink(x);
    }

    method Sink(x: nat)
      requires Held() && size + 2 <= pointers.Length
      modifies this`size, this`list, pointers
      ensures Held() && list == Inserted(old(list), x)
    {
      size := size + 1;
      pointers[size - 1] := x;
      pointers[size] := 0;
      Settle(pointers, size - 1, list, x);
      list := Inserted(list, x);
      hide Inserted;
    }

    method GetReg() returns (reg: nat)
      requires Valid()
      modifies this`size, this`count, this`list
      ensures Valid() && (reg, Value()) == Get(old(Value()))
    {
      GetUses(Value());
      if size > 0 {
        size := size - 1;
        reg := pointers[size];
        list := list[..size];
      } else {
        reg := count;
        count := count + 1;
      }
    }

    method RetReg(reg: nat)
      requires Valid() && reg < count
      modifies this`pointers, this`size, this`list, pointers
      ensures Valid() && Value() == Return(old(Value()), reg)
      ensures pointers == old(pointers) || fresh(pointers)
    {
      var i := 0;
      while i < size
        invariant i <= size && reg !in list[..i]
      {
        if reg == pointers[i] { return; }
        i := i + 1;
      }
      assert list[..i] == list;
      ReturnFrees(Value(), reg);
      Add(reg);
    }

    /** Counts the registers at the end of the list that follow each other, until
        there are enough. */
    method CountRun(number: nat) returns (top: int, run: nat)
      requires Held() && size > 0 && number >= 1
      ensures 1 <= run <= size && top == list[size - 1] - run + 1
      ensures var most := if number == 1 then 2 else number;
        run <= most && EndsInRow(list, run) && RunStops(list, run, most)
    {
      var i := size - 1;
      top := pointers[i];
      run := 1;
      ghost var most := if number == 1 then 2 else number;
      while i > 0
        invariant i < size && run == size - i && run < most
        invariant top == list[i] == list[size - 1] - run + 1 && EndsInRow(list, run)
      {
        i := i - 1;
        if pointers[i] == top - 1 {
          top := top - 1;
          run := run + 1;
          if run >= number { return; }
        } else {
          return;
        }
      }
    }

    method Shorten(n: nat)
      requires Held() && n <= size
      modifies this`size, this`list
      ensures Held() && list == old(list)[..|old(list)| - n]
    {
      size := size - n;
      list := list[..size];
    }

    /** The start of a row of `number` registers. For one register see GetOneExact. */
    method GetRegs(number: nat) returns (reg: int)
      requires Valid() && number >= 1
      modifies this`size, this`count, this`list
      ensures Held()
      ensures reg == GetRow(old(Value()), number).0
      ensures Value() == GetRow(old(Value()), number).1
      ensures number >= 2 ==> Valid()
    {
      ghost var p := Value();
      if number >= 2 { GetRowValid(p, number); }
      if size == 0 { GetRowNew(p, number); }
      hide GetRow, Pool.Used, Pool.Valid, EndsInRow, RunStops;
      if size > 0 {
        var top, run := CountRun(number);
        GetRowIs(p, number, run);
        if run >= 2 && run >= number {
          reg := top;
          Shorten(number);
          return;
        }
        if pointers[size - 1] + 1 == count {
          reg := top;
          Shorten(run);
          count := count + number - run;
          return;
        }
      }
      reg := count;
      count := count + number;
    }
  }
}
