/**
 ids/bits.go: comparing IDs on a range of bits. Bit i of an ID is bit i % 8 of its byte i / 8, counted
 from the least significant one.
 */
module Bits {
  import opened Wrappers

  const NUM_BITS := 256
  const BITS_PER_BYTE := 8

  type ID = s: seq<bv8> | |s| == 32 witness seq(32, _ => 0)

  // 1 << i, on a byte
  function One(i: nat): bv8
    requires i < 8
  {
    if i == 0 then 1 else if i == 1 then 2 else if i == 2 then 4 else if i == 3 then 8
    else if i == 4 then 16 else if i == 5 then 32 else if i == 6 then 64 else 128
  }

  function Bit(b: bv8, i: nat): bool
    requires i < 8
  {
    b & One(i) != 0
  }

  function BitAt(id: ID, i: nat): bool
    requires i < NUM_BITS
  {
    Bit(id[i / 8], i % 8)
  }

  // -1 << startBit, on a byte
  function StartMask(startBit: nat): bv8
    requires startBit < 8
  {
    0xFF << startBit
  }

  // (1 << (stopBit + 1)) - 1, on a byte
  function StopMask(stopBit: nat): bv8
    requires stopBit < 8
  {
    0xFF >> (7 - stopBit)
  }

  // bits.TrailingZeros8
  function TrailingZeros(b: bv8): nat {
    if Bit(b, 0) then 0 else if Bit(b, 1) then 1 else if Bit(b, 2) then 2 else if Bit(b, 3) then 3
    else if Bit(b, 4) then 4 else if Bit(b, 5) then 5 else if Bit(b, 6) then 6 else if Bit(b, 7) then 7 else 8
  }

  // ---------- One byte ----------

  ghost predicate SameBits(a: bv8, b: bv8, lo: nat, hi: nat)
    requires hi < 8
  {
    forall i | lo <= i <= hi :: Bit(a, i) == Bit(b, i)
  }

  // A masked byte keeps the bits from lo to hi and loses the others.
  lemma StartMaskTable(lo: nat)
    requires lo < 8
    ensures StartMask(lo) == if lo == 0 then 0xFF else if lo == 1 then 0xFE else if lo == 2 then 0xFC
            else if lo == 3 then 0xF8
                             else if lo == 4 then 0xF0 else if lo == 5 then 0xE0 else if lo == 6 then 0xC0 else 0x80
  {
  }

  lemma StopMaskTable(hi: nat)
    requires hi < 8
    ensures StopMask(hi) == if hi == 0 then 1 else if hi == 1 then 3 else if hi == 2 then 7 else if hi == 3 then 0xF
                            else if hi == 4 then 0x1F else if hi == 5 then 0x3F else if hi == 6 then 0x7F else 0xFF
  {
  }

  lemma StartMasked(b: bv8, lo: nat, i: nat)
    requires lo < 8 && i < 8
    ensures Bit(StartMask(lo) & b, i) <==> lo <= i && Bit(b, i)
  {
    StartMaskTable(lo);
  }

  lemma StopMasked(b: bv8, hi: nat, i: nat)
    requires hi < 8 && i < 8
    ensures Bit(StopMask(hi) & b, i) <==> i <= hi && Bit(b, i)
  {
    StopMaskTable(hi);
  }

  lemma MasksDecide(a: bv8, b: bv8)
    requires (a & 1 != 0) == (b & 1 != 0) && (a & 2 != 0) == (b & 2 != 0) && (a & 4 != 0) == (b & 4 != 0) &&
             (a & 8 != 0) == (b & 8 != 0)
    requires (a & 16 != 0) == (b & 16 != 0) && (a & 32 != 0) == (b & 32 != 0) && (a & 64 != 0) == (b & 64 != 0) &&
             (a & 128 != 0) == (b & 128 != 0)
    ensures a == b
  {
  }

  lemma OneTable()
    ensures One(0) == 1 && One(1) == 2 && One(2) == 4 && One(3) == 8 && One(4) == 16 && One(5) == 32 && One(6) == 64 &&
            One(7) == 128
  {
  }

  lemma BitsDecide(a: bv8, b: bv8)
    requires Bit(a, 0) == Bit(b, 0) && Bit(a, 1) == Bit(b, 1) && Bit(a, 2) == Bit(b, 2) && Bit(a, 3) == Bit(b, 3)
    requires Bit(a, 4) == Bit(b, 4) && Bit(a, 5) == Bit(b, 5) && Bit(a, 6) == Bit(b, 6) && Bit(a, 7) == Bit(b, 7)
    ensures a == b
  {
    OneTable();
    MasksDecide(a, b);
  }

  // A byte is its bits.
  lemma SameByte(a: bv8, b: bv8)
    ensures a == b <==> SameBits(a, b, 0, 7)
  {
    if SameBits(a, b, 0, 7) {
      BitsDecide(a, b);
    }
  }

  lemma XorBit(a: bv8, b: bv8, i: nat)
    requires i < 8
    ensures Bit(a ^ b, i) <==> Bit(a, i) != Bit(b, i)
  {
    OneIsPower(i);
    XorMask(a, b, One(i));
  }

  lemma OneIsPower(i: nat)
    requires i < 8
    ensures IsPower(One(i))
  {
  }

  predicate IsPower(m: bv8) {
    m == 1 || m == 2 || m == 4 || m == 8 || m == 16 || m == 32 || m == 64 || m == 128
  }

  // On one bit, exclusive or is difference.
  lemma XorMask(a: bv8, b: bv8, m: bv8)
    requires IsPower(m)
    ensures (a ^ b) & m != 0 <==> (a & m != 0) != (b & m != 0)
  {
  }

  // m is b with only the bits from lo to hi left.
  ghost predicate Masked(m: bv8, b: bv8, lo: nat, hi: nat) {
    forall i | 0 <= i < 8 :: Bit(m, i) <==> lo <= i <= hi && Bit(b, i)
  }

  // Two masked bytes are equal exactly when the bytes agree on the bits the mask keeps.
  lemma MaskedEqual(m: bv8, n: bv8, a: bv8, b: bv8, lo: nat, hi: nat)
    requires hi < 8 && Masked(m, a, lo, hi) && Masked(n, b, lo, hi)
    ensures m == n <==> SameBits(a, b, lo, hi)
  {
    SameByte(m, n);
    if SameBits(m, n, 0, 7) {
      forall i | lo <= i <= hi
        ensures Bit(a, i) == Bit(b, i)
      {
        assert Bit(m, i) == Bit(n, i);
      }
    }
  }

  // The least bit on which two masked bytes differ is the first one in range on which the bytes do.
  lemma MaskedFirst(m: bv8, n: bv8, a: bv8, b: bv8, lo: nat, hi: nat)
    requires hi < 8 && Masked(m, a, lo, hi) && Masked(n, b, lo, hi) && m != n
    ensures var k := TrailingZeros(m ^ n);
            lo <= k <= hi && Bit(a, k) != Bit(b, k) && forall i | lo <= i < k :: Bit(a, i) == Bit(b, i)
  {
    var x := m ^ n;
    forall i | 0 <= i < 8
      ensures Bit(x, i) <==> lo <= i <= hi && Bit(a, i) != Bit(b, i)
    {
      XorBit(m, n, i);
      assert Bit(m, i) <==> lo <= i <= hi && Bit(a, i);
      assert Bit(n, i) <==> lo <= i <= hi && Bit(b, i);
    }
    MaskedEqual(m, n, a, b, lo, hi);
    var i :| lo <= i <= hi && Bit(a, i) != Bit(b, i);
    assert Bit(x, i);
    LeastBit(x, i);
  }

  lemma LeastBit(x: bv8, i: nat)
    requires i < 8 && Bit(x, i)
    ensures TrailingZeros(x) <= i && Bit(x, TrailingZeros(x)) && forall j | 0 <= j < TrailingZeros(x) :: !Bit(x, j)
  {
  }

  // The masks of the source keep the bits they are meant to keep.
  lemma StartKeeps(b: bv8, lo: nat)
    requires lo < 8
    ensures Masked(StartMask(lo) & b, b, lo, 7)
  {
    forall i | 0 <= i < 8
      ensures Bit(StartMask(lo) & b, i) <==> lo <= i <= 7 && Bit(b, i)
    {
      StartMasked(b, lo, i);
    }
  }

  lemma StopKeeps(b: bv8, hi: nat)
    requires hi < 8
    ensures Masked(StopMask(hi) & b, b, 0, hi)
  {
    forall i | 0 <= i < 8
      ensures Bit(StopMask(hi) & b, i) <==> 0 <= i <= hi && Bit(b, i)
    {
      StopMasked(b, hi, i);
    }
  }

  lemma AndAssociative(a: bv8, b: bv8, c: bv8)
    ensures (a & b) & c == a & (b & c)
  {
  }

  lemma BothKeep(b: bv8, lo: nat, hi: nat)
    requires lo < 8 && hi < 8
    ensures Masked((StartMask(lo) & StopMask(hi)) & b, b, lo, hi)
  {
    AndAssociative(StartMask(lo), StopMask(hi), b);
    forall i | 0 <= i < 8
      ensures Bit((StartMask(lo) & StopMask(hi)) & b, i) <==> lo <= i <= hi && Bit(b, i)
    {
      StartMasked(StopMask(hi) & b, lo, i);
      StopMasked(b, hi, i);
    }
  }

  // ---------- Ranges of bits ----------

  ghost predicate Agree(id1: ID, id2: ID, start: nat, stop: nat)
    requires stop <= NUM_BITS
  {
    forall i | start <= i < stop :: BitAt(id1, i) == BitAt(id2, i)
  }

  // Agreeing within one byte is agreeing on its bits.
  lemma AgreeInByte(id1: ID, id2: ID, index: nat, lo: nat, hi: nat)
    requires index < 32 && hi < 8
    ensures Agree(id1, id2, 8 * index + lo, 8 * index + hi + 1) <==> SameBits(id1[index], id2[index], lo, hi)
  {
    forall b | lo <= b <= hi
      ensures BitAt(id1, 8 * index + b) == Bit(id1[index], b) && BitAt(id2, 8 * index + b) == Bit(id2[index], b)
    {
      Position(index, b);
    }
    if SameBits(id1[index], id2[index], lo, hi) {
      forall i | 8 * index + lo <= i < 8 * index + hi + 1
        ensures BitAt(id1, i) == BitAt(id2, i)
      {
        Position(index, i - 8 * index);
        assert Bit(id1[index], i - 8 * index) == Bit(id2[index], i - 8 * index);
      }
    }
    if Agree(id1, id2, 8 * index + lo, 8 * index + hi + 1) {
      forall b | lo <= b <= hi
        ensures Bit(id1[index], b) == Bit(id2[index], b)
      {
        assert BitAt(id1, 8 * index + b) == BitAt(id2, 8 * index + b);
      }
    }
  }

  lemma Position(index: nat, b: nat)
    requires b < 8
    ensures (8 * index + b) / 8 == index && (8 * index + b) % 8 == b
  {
  }

  lemma AgreeSplit(id1: ID, id2: ID, a: nat, b: nat, c: nat)
    requires a <= b <= c <= NUM_BITS
    ensures Agree(id1, id2, a, c) <==> Agree(id1, id2, a, b) && Agree(id1, id2, b, c)
  {
    if Agree(id1, id2, a, b) && Agree(id1, id2, b, c) {
      forall i | a <= i < c
        ensures BitAt(id1, i) == BitAt(id2, i)
      {
      }
    }
  }

  lemma SlicesEqual<T>(s: seq<T>, t: seq<T>, from: nat, end: nat)
    requires from < end <= |s| && |s| == |t|
    ensures s[from..end] == t[from..end] <==> s[from..end - 1] == t[from..end - 1] && s[end - 1] == t[end - 1]
  {
    var a, b := s[from..end], t[from..end];
    var n := |a| - 1;
    assert a == s[from..end - 1] + [s[end - 1]] && b == t[from..end - 1] + [t[end - 1]];
    assert a[..n] == s[from..end - 1] && b[..n] == t[from..end - 1] && a[n] == s[end - 1] && b[n] == t[end - 1];
  }

  lemma {:induction false} AgreeBytes(id1: ID, id2: ID, from: nat, end: nat)
    requires from <= end <= 32
    ensures Agree(id1, id2, 8 * from, 8 * end) <==> id1[from..end] == id2[from..end]
    decreases end
  {
    if from < end {
      AgreeBytes(id1, id2, from, end - 1);
      AgreeSplit(id1, id2, 8 * from, 8 * (end - 1), 8 * end);
      AgreeInByte(id1, id2, end - 1, 0, 7);
      SameByte(id1[end - 1], id2[end - 1]);
      SlicesEqual(id1, id2, from, end);
    }
  }

  // The range as a first byte, whole bytes, and a last byte.
  lemma AgreeInParts(id1: ID, id2: ID, start: nat, last: nat)
    requires start <= last < NUM_BITS && start / 8 < last / 8
    ensures var a, z := start / 8, last / 8;
            Agree(id1, id2, start, last + 1) <==>
              SameBits(id1[a], id2[a], start % 8, 7) && id1[a + 1..z] == id2[a + 1..z] &&
                  SameBits(id1[z], id2[z], 0, last % 8)
  {
    var a, z := start / 8, last / 8;
    AgreeSplit(id1, id2, start, 8 * (a + 1), last + 1);
    AgreeSplit(id1, id2, 8 * (a + 1), 8 * z, last + 1);
    AgreeInByte(id1, id2, a, start % 8, 7);
    AgreeBytes(id1, id2, a + 1, z);
    AgreeInByte(id1, id2, z, 0, last % 8);
  }

  // Two bytes under the same mask.
  method MaskBytes(b1: bv8, b2: bv8, startBit: nat, stopBit: nat) returns (m1: bv8, m2: bv8)
    requires startBit < 8 && stopBit < 8
    ensures Masked(m1, b1, startBit, stopBit) && Masked(m2, b2, startBit, stopBit)
  {
    var mask := StartMask(startBit) & StopMask(stopBit);
    m1, m2 := mask & b1, mask & b2;
    BothKeep(b1, startBit, stopBit);
    BothKeep(b2, startBit, stopBit);
  }

  method MaskStart(b1: bv8, b2: bv8, startBit: nat) returns (m1: bv8, m2: bv8)
    requires startBit < 8
    ensures Masked(m1, b1, startBit, 7) && Masked(m2, b2, startBit, 7)
  {
    m1, m2 := StartMask(startBit) & b1, StartMask(startBit) & b2;
    StartKeeps(b1, startBit);
    StartKeeps(b2, startBit);
  }

  method MaskStop(b1: bv8, b2: bv8, stopBit: nat) returns (m1: bv8, m2: bv8)
    requires stopBit < 8
    ensures Masked(m1, b1, 0, stopBit) && Masked(m2, b2, 0, stopBit)
  {
    m1, m2 := StopMask(stopBit) & b1, StopMask(stopBit) & b2;
    StopKeeps(b1, stopBit);
    StopKeeps(b2, stopBit);
  }

  // Whether all bits from start up to but excluding stop agree. A range beyond the last bit is never equal.
  method EqualSubset(start: nat, stop: int, id1: ID, id2: ID) returns (r: bool)
    ensures r <==> stop <= start || (stop <= NUM_BITS && Agree(id1, id2, start, stop))
  {
    var last := stop - 1;
    if start > last || last < 0 {
      return true;
    }
    if last >= NUM_BITS {
      return false;
    }
    var startIndex, stopIndex := start / BITS_PER_BYTE, last / BITS_PER_BYTE;
    var startBit, stopBit := start % BITS_PER_BYTE, last % BITS_PER_BYTE;
    if startIndex == stopIndex {
      var b1, b2 := MaskBytes(id1[startIndex], id2[startIndex], startBit, stopBit);
      MaskedEqual(b1, b2, id1[startIndex], id2[startIndex], startBit, stopBit);
      AgreeInByte(id1, id2, startIndex, startBit, stopBit);
      return b1 == b2;
    }
    AgreeInParts(id1, id2, start, last);
    if startIndex + 1 < stopIndex && id1[startIndex + 1..stopIndex] != id2[startIndex + 1..stopIndex] {
      return false;
    }
    var start1, start2 := MaskStart(id1[startIndex], id2[startIndex], startBit);
    MaskedEqual(start1, start2, id1[startIndex], id2[startIndex], startBit, 7);
    var stop1, stop2 := MaskStop(id1[stopIndex], id2[stopIndex], stopBit);
    MaskedEqual(stop1, stop2, id1[stopIndex], id2[stopIndex], 0, stopBit);
    return start1 == start2 && stop1 == stop2;
  }

  // The first bit in the range on which the IDs differ.
  ghost predicate FirstDifference(id1: ID, id2: ID, start: nat, stop: nat, n: nat)
    requires stop <= NUM_BITS
  {
    start <= n < stop && BitAt(id1, n) != BitAt(id2, n) && Agree(id1, id2, start, n)
  }

  // The position of the first bit on which two masked bytes of the IDs differ.
  method FirstInByte(id1: ID, id2: ID, ghost start: nat, ghost stop: nat, index: nat, m1: bv8, m2: bv8, ghost lo: nat,
                     ghost hi: nat) returns (n: nat)
    requires index < 32 && lo <= hi < 8 && Masked(m1, id1[index], lo, hi) && Masked(m2, id2[index], lo, hi) && m1 != m2
    requires start <= 8 * index + lo && 8 * index + hi < stop <= NUM_BITS && Agree(id1, id2, start, 8 * index + lo)
    ensures FirstDifference(id1, id2, start, stop, n)
  {
    var k := TrailingZeros(m1 ^ m2);
    MaskedFirst(m1, m2, id1[index], id2[index], lo, hi);
    FirstAt(id1, id2, start, index, lo, k);
    return k + index * BITS_PER_BYTE;
  }

  lemma FirstAt(id1: ID, id2: ID, start: nat, index: nat, lo: nat, k: nat)
    requires index < 32 && lo <= k < 8 && start <= 8 * index + lo && Agree(id1, id2, start, 8 * index + lo)
    requires Bit(id1[index], k) != Bit(id2[index], k) &&
             forall i | lo <= i < k :: Bit(id1[index], i) == Bit(id2[index], i)
    ensures Agree(id1, id2, start, 8 * index + k) && BitAt(id1, 8 * index + k) != BitAt(id2, 8 * index + k)
  {
    Position(index, k);
    if k > lo {
      AgreeInByte(id1, id2, index, lo, k - 1);
    }
    AgreeSplit(id1, id2, start, 8 * index + lo, 8 * index + k);
  }

  lemma NotInByte(id1: ID, id2: ID, start: nat, index: nat, m: bv8, lo: nat, hi: nat)
    requires index < 32 && lo <= hi < 8 && Masked(m, id1[index], lo, hi) && Masked(m, id2[index], lo, hi)
    requires start <= 8 * index + lo && Agree(id1, id2, start, 8 * index + lo)
    ensures Agree(id1, id2, start, 8 * index + hi + 1)
  {
    MaskedEqual(m, m, id1[index], id2[index], lo, hi);
    AgreeInByte(id1, id2, index, lo, hi);
    AgreeSplit(id1, id2, start, 8 * index + lo, 8 * index + hi + 1);
  }

  lemma WholeByte(b: bv8)
    ensures Masked(b, b, 0, 7)
  {
  }

  // The least bit in the range on which the IDs differ, or none. A range beyond the last bit has none.
  method FirstDifferenceSubset(start: nat, stop: int, id1: ID, id2: ID) returns (n: nat, found: bool)
    ensures start >= stop || stop > NUM_BITS ==> n == 0 && !found
    ensures start < stop <= NUM_BITS ==>
              if found then FirstDifference(id1, id2, start, stop, n) else n == 0 && Agree(id1, id2, start, stop)
  {
    var last := stop - 1;
    if start > last || last < 0 || last >= NUM_BITS {
      return 0, false;
    }
    var startIndex, stopIndex := start / BITS_PER_BYTE, last / BITS_PER_BYTE;
    var startBit, stopBit := start % BITS_PER_BYTE, last % BITS_PER_BYTE;
    if startIndex == stopIndex {
      var b1, b2 := MaskBytes(id1[startIndex], id2[startIndex], startBit, stopBit);
      if b1 == b2 {
        NotInByte(id1, id2, start, startIndex, b1, startBit, stopBit);
        return 0, false;
      }
      n := FirstInByte(id1, id2, start, stop, startIndex, b1, b2, startBit, stopBit);
      return n, true;
    }
    var start1, start2 := MaskStart(id1[startIndex], id2[startIndex], startBit);
    if start1 != start2 {
      n := FirstInByte(id1, id2, start, stop, startIndex, start1, start2, startBit, 7);
      return n, true;
    }
    NotInByte(id1, id2, start, startIndex, start1, startBit, 7);
    for i := startIndex + 1 to stopIndex
      invariant Agree(id1, id2, start, 8 * i)
    {
      var b1, b2 := id1[i], id2[i];
      WholeByte(b1);
      WholeByte(b2);
      if b1 != b2 {
        n := FirstInByte(id1, id2, start, stop, i, b1, b2, 0, 7);
        return n, true;
      }
      NotInByte(id1, id2, start, i, b1, 0, 7);
    }
    var stop1, stop2 := MaskStop(id1[stopIndex], id2[stopIndex], stopBit);
    if stop1 != stop2 {
      n := FirstInByte(id1, id2, start, stop, stopIndex, stop1, stop2, 0, stopBit);
      return n, true;
    }
    NotInByte(id1, id2, start, stopIndex, stop1, 0, stopBit);
    return 0, false;
  }
}
