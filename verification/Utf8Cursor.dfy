/** The cached character position of a UTF-8 string. */
module Utf8Cursor {
  type Bytes = seq<bv8>

  /* ---- UTF-8, as in section 4 of RFC 3629 ---- */

  predicate Tail(b: bv8) { 0x80 <= b <= 0xbf }

  /** The n bytes at an offset are one character. */
  predicate IsChar(s: Bytes, at: nat, n: nat) {
    && 1 <= n <= 4 && at + n <= |s|
    && var b := s[at];
       if n == 1 then b <= 0x7f
       else if n == 2 then 0xc2 <= b <= 0xdf && Tail(s[at + 1])
       else if n == 3 then
         && Tail(s[at + 1]) && Tail(s[at + 2])
         && (|| (b == 0xe0 && s[at + 1] >= 0xa0) || 0xe1 <= b <= 0xec
             || (b == 0xed && s[at + 1] <= 0x9f) || 0xee <= b <= 0xef)
       else
         && Tail(s[at + 1]) && Tail(s[at + 2]) && Tail(s[at + 3])
         && (|| (b == 0xf0 && s[at + 1] >= 0x90) || 0xf1 <= b <= 0xf3 || (b == 0xf4 && s[at + 1] <= 0x8f))
  }

  /** The offsets of all characters of a valid string, and its length at the end. */
  predicate Offsets(s: Bytes, offsets: seq<nat>) {
    && offsets != [] && offsets[0] == 0 && offsets[|offsets| - 1] == |s|
    && forall k :: 0 <= k < |offsets| - 1 ==> offsets[k] < offsets[k + 1] && IsChar(s, offsets[k], offsets[k + 1] - offsets[k])
  }

  /* ---- The size of the character at and before a position ---- */

  /** By the bits of the first byte. */
  function CodepointSize(s: Bytes, at: nat): (n: nat)
    requires at < |s|
    ensures 1 <= n <= 4
  {
    if s[at] & 0xf8 == 0xf0 then 4
    else if s[at] & 0xf0 == 0xe0 then 3
    else if s[at] & 0xe0 == 0xc0 then 2
    else 1
  }

  predicate Continues(b: bv8) { b & 0x80 != 0 && b & 0xc0 == 0x80 }

  lemma ContinuesIsTail(b: bv8)
    ensures Continues(b) <==> Tail(b)
  {
  }

  lemma FirstByte(b: bv8)
    ensures b <= 0x7f ==> b & 0xf8 != 0xf0 && b & 0xf0 != 0xe0 && b & 0xe0 != 0xc0
    ensures 0xc2 <= b <= 0xdf ==> b & 0xf8 != 0xf0 && b & 0xf0 != 0xe0 && b & 0xe0 == 0xc0
    ensures 0xe0 <= b <= 0xef ==> b & 0xf8 != 0xf0 && b & 0xf0 == 0xe0
    ensures 0xf0 <= b <= 0xf4 ==> b & 0xf8 == 0xf0
  {
  }

  /** The size of a valid character is read off its first byte. */
  lemma SizeOfChar(s: Bytes, at: nat, n: nat)
    requires IsChar(s, at, n)
    ensures CodepointSize(s, at) == n
  {
    FirstByte(s[at]);
  }

  /** Steps back over continuation bytes to the start of the character before. */
  method BackSize(s: Bytes, at: nat, ghost start: nat) returns (n: nat)
    requires start < at <= |s| && IsChar(s, start, at - start)
    ensures n == at - start
  {
    var p := at - 1;
    while Continues(s[p])
      invariant start <= p < at
      decreases p
    {
      ContinuesIsTail(s[start]);
      p := p - 1;
    }
    ContinuesIsTail(s[p]);
    n := at - p;
  }

  /* ---- A plain walk from the start ---- */

  /** The offset after k characters, each step by the size at hand; the end of the
      string stops the walk. */
  function Walk(s: Bytes, k: nat): (at: nat)
    ensures at <= |s|
  {
    if k == 0 then 0
    else
      var before := Walk(s, k - 1);
      if before == |s| || before + CodepointSize(s, before) > |s| then |s|
      else before + CodepointSize(s, before)
  }

  lemma {:induction false} WalkOffsets(s: Bytes, offsets: seq<nat>, k: nat)
    requires Offsets(s, offsets) && k < |offsets|
    ensures Walk(s, k) == offsets[k]
  {
    if k > 0 {
      WalkOffsets(s, offsets, k - 1);
      SizeOfChar(s, offsets[k - 1], offsets[k] - offsets[k - 1]);
    }
  }

  lemma {:induction false} OffsetsAscend(s: Bytes, offsets: seq<nat>, j: nat, k: nat)
    requires Offsets(s, offsets) && j < k < |offsets|
    ensures offsets[j] < offsets[k]
    decreases k - j
  {
    if j + 1 < k { OffsetsAscend(s, offsets, j + 1, k); }
  }

  /* ---- The cursor ---- */

  class Cursor {
    const value: Bytes
    const chars: nat
    var pos: nat
    var charPos: nat
    ghost const offsets: seq<nat>
    ghost var steps: nat // characters stepped over so far

    /** The byte position is where a plain walk finds the character. */
    ghost predicate Valid()
      reads this
    {
      Sized() && charPos < chars && pos == Walk(value, charPos)
    }

    ghost predicate Sized() {
      Offsets(value, offsets) && |offsets| == chars + 1
    }

    constructor (value: Bytes, ghost offsets: seq<nat>, chars: nat)
      requires Offsets(value, offsets) && |offsets| == chars + 1 && chars > 0
      ensures Valid() && this.value == value && this.chars == chars && charPos == 0
    {
      this.value, this.offsets, this.chars := value, offsets, chars;
      pos, charPos := 0, 0;
    }

    lemma AtOffset(k: nat)
      requires Sized() && k <= chars
      ensures Walk(value, k) == offsets[k]
      ensures k < chars ==> offsets[k] < |value| && IsChar(value, offsets[k], offsets[k + 1] - offsets[k])
      ensures k == chars ==> offsets[k] == |value|
    {
      WalkOffsets(value, offsets, k);
      if k < chars { OffsetsAscend(value, offsets, k, chars); }
    }

    method Forward()
      requires Sized() && charPos < chars && pos == Walk(value, charPos)
      modifies this
      ensures charPos == old(charPos) + 1 && pos == Walk(value, charPos) && steps == old(steps) + 1
    {
      AtOffset(charPos);
      AtOffset(charPos + 1);
      SizeOfChar(value, pos, offsets[charPos + 1] - pos);
      pos := pos + CodepointSize(value, pos);
      charPos, steps := charPos + 1, steps + 1;
    }

    method Back()
      requires Sized() && 0 < charPos <= chars && pos == Walk(value, charPos)
      modifies this
      ensures charPos == old(charPos) - 1 && pos == Walk(value, charPos) && steps == old(steps) + 1
    {
      AtOffset(charPos);
      AtOffset(charPos - 1);
      var n := BackSize(value, pos, offsets[charPos - 1]);
      pos := pos - n;
      charPos, steps := charPos - 1, steps + 1;
    }

    /** Moves to a character: one step on, one step back, or a walk from the end, from
        the start or from here, whichever is nearest. All end where the plain walk does,
        after at most one step or as few as from the nearest of the three. */
    method SetBytePos(to: nat)
      requires Valid() && to < chars
      modifies this
      ensures Valid() && charPos == to
      ensures steps <= old(steps) + 1 || steps <= old(steps) + to
      ensures steps <= old(steps) + (if to >= old(charPos) then to - old(charPos) else old(charPos) - to)
      ensures steps <= old(steps) + (chars - to)
    {
      ghost var from := charPos;
      var diff: int := to - charPos;
      if diff == 1 {
        Forward();
        return;
      }
      if diff == -1 {
        Back();
        return;
      }
      if diff > 1 {
        if chars - 1 - to < diff {
          // from the end: the step over the last character comes before the loop
          AtOffset(chars);
          AtOffset(chars - 1);
          pos := |value|;
          charPos := chars - 1;
          var n := BackSize(value, pos, offsets[chars - 1]);
          pos, steps := pos - n, steps + 1;
          while charPos != to
            invariant to <= charPos < chars && pos == Walk(value, charPos)
            invariant steps == old(steps) + chars - charPos
            decreases charPos
          {
            Back();
          }
          return;
        }
        while charPos != to
          invariant charPos <= to && pos == Walk(value, charPos) && steps == old(steps) + charPos - from
        {
          Forward();
        }
        return;
      }
      if to <= -diff {
        pos := 0;
        charPos := 0;
        while charPos != to
          invariant charPos <= to && pos == Walk(value, charPos) && steps == old(steps) + charPos
        {
          Forward();
        }
        return;
      }
      while charPos != to
        invariant to <= charPos < chars && pos == Walk(value, charPos) && steps == old(steps) + from - charPos
        decreases charPos
      {
        Back();
      }
    }
  }
}
