/** The orderings the tables of the tool chain are sorted by: `strcmp` on names, and the
    comparison of two instructions by name and then by the three operand types. */
module Keys {

  /** An entry of the instruction table. A plain string table uses operand types 0. */
  datatype Key = Key(name: seq<nat>, op1: int, op2: int, op3: int)

  /** `strcmp`: negative, zero or positive, by the first differing byte. */
  function StrCmp(a: seq<nat>, b: seq<nat>): int
  {
    if a == [] then (if b == [] then 0 else -1)
    else if b == [] then 1
    else if a[0] != b[0] then a[0] - b[0]
    else StrCmp(a[1..], b[1..])
  }

  /** The comparison the instruction table is built with. */
  function Compare(a: Key, b: Key): int
  {
    var c := StrCmp(a.name, b.name);
    if c != 0 then c
    else if a.op1 != b.op1 then a.op1 - b.op1
    else if a.op2 != b.op2 then a.op2 - b.op2
    else a.op3 - b.op3
  }

  /** The comparison by name only, used to find some instruction with a given mnemonic. */
  function CompareName(a: Key, b: Key): int
  {
    StrCmp(a.name, b.name)
  }

  lemma {:induction false} StrCmpAntisymmetric(a: seq<nat>, b: seq<nat>)
    ensures StrCmp(a, b) < 0 <==> StrCmp(b, a) > 0
    ensures StrCmp(a, b) > 0 <==> StrCmp(b, a) < 0
    ensures StrCmp(a, b) == 0 <==> a == b
  {
    if a == [] || b == [] {
    } else if a[0] != b[0] {
    } else {
      StrCmpAntisymmetric(a[1..], b[1..]);
      assert a == [a[0]] + a[1..] && b == [b[0]] + b[1..];
    }
  }

  lemma {:induction false} StrCmpTransitive(a: seq<nat>, b: seq<nat>, c: seq<nat>)
    requires StrCmp(a, b) < 0 && StrCmp(b, c) < 0
    ensures StrCmp(a, c) < 0
  {
    if a != [] && a[0] == b[0] && b[0] == c[0] {
      StrCmpTransitive(a[1..], b[1..], c[1..]);
    }
  }

  /** The strings agree up to k, and there the first one ends or has the lower byte. */
  predicate LowerAt(a: seq<nat>, b: seq<nat>, k: nat) {
    k <= |a| && k < |b| && a[..k] == b[..k] && (k == |a| || a[k] < b[k])
  }

  /** `strcmp` orders by the first byte that differs, a prefix before what it begins. */
  lemma {:induction false} StrCmpExact(a: seq<nat>, b: seq<nat>)
    ensures StrCmp(a, b) < 0 <==> exists k: nat :: LowerAt(a, b, k)
  {
    if a == [] {
      assert b != [] ==> LowerAt(a, b, 0);
    } else if b != [] && a[0] == b[0] {
      StrCmpExact(a[1..], b[1..]);
      if k: nat :| LowerAt(a[1..], b[1..], k) {
        assert a[..k + 1] == [a[0]] + a[1..][..k] && b[..k + 1] == [b[0]] + b[1..][..k];
        assert LowerAt(a, b, k + 1);
      }
      if k: nat :| LowerAt(a, b, k) {
        assert k > 0 && a[1..][..k - 1] == a[..k][1..] && b[1..][..k - 1] == b[..k][1..];
        assert LowerAt(a[1..], b[1..], k - 1);
      }
    } else if b != [] && a[0] < b[0] {
      assert LowerAt(a, b, 0);
    }
  }

  /** Instructions are ordered by name, then by their operands' types from the first on. */
  lemma CompareExact(a: Key, b: Key)
    ensures Compare(a, b) < 0 <==>
      || (exists k: nat :: LowerAt(a.name, b.name, k))
      || (a.name == b.name
          && (|| a.op1 < b.op1
              || (a.op1 == b.op1 && a.op2 < b.op2)
              || (a.op1 == b.op1 && a.op2 == b.op2 && a.op3 < b.op3)))
  {
    StrCmpExact(a.name, b.name);
    StrCmpAntisymmetric(a.name, b.name);
    hide LowerAt;
  }

  /** `Compare` is a total order: the tree needs no more of its callback than this. */
  lemma CompareIsTotalOrder(a: Key, b: Key, c: Key)
    ensures Compare(a, b) < 0 <==> Compare(b, a) > 0
    ensures Compare(a, b) == 0 <==> a == b
    ensures Compare(a, b) < 0 && Compare(b, c) < 0 ==> Compare(a, c) < 0
  {
    StrCmpAntisymmetric(a.name, b.name);
    StrCmpAntisymmetric(b.name, c.name);
    StrCmpAntisymmetric(a.name, c.name);
    if StrCmp(a.name, b.name) < 0 && StrCmp(b.name, c.name) < 0 {
      StrCmpTransitive(a.name, b.name, c.name);
    }
  }

  /** Keys with one name are contiguous: the order by name is a coarsening of the order. */
  lemma NameOrderIsCoarser(a: Key, b: Key)
    requires Compare(a, b) < 0
    ensures CompareName(a, b) <= 0
  {
  }
}
